/** Opening a store after a crash: the value log is replayed from a saved head into new memtables. */
module Recovery {
  import opened Wrappers
  import opened Bytes
  import opened Entries
  import opened LogCodec
  import opened Merge
  import opened Memtables
  import opened Store
  import opened StoreSteps

  /** The first log of a new store: the tail record, then the head record. */
  function FirstLog(time: nat): (log: seq<Record>)
  {
    [Record(TAIL_KEY, TAIL_KEY, time, false), Record(HEAD_KEY, HEAD_KEY, time, false)]
  }

  /** The head a recovery uses when the meta file is empty. */
  const DEFAULT_HEAD: nat := 4 + 4 + 8 + 1 + 4 + 4

  /** `handle_empty_vlog` */
  function NewStore(clock: nat -> nat): (s: State)
  {
    var log := FirstLog(clock(0));
    var a := Inserted(Inserted(EmptyTable, Entry(TAIL_KEY, 0, clock(0), false)),
                      Entry(HEAD_KEY, OffsetOf(log, 1), clock(0), false));
    State(log, 0, 0, a, [], [], [], 0, ToActive, [(DEFAULT_HEAD, 0)], 1)
  }

  /** That head is the offset of the head record of every log that grew from the first one. */
  lemma DefaultHeadIsHeadRecord(time: nat, more: seq<Record>)
    ensures OffsetOf(FirstLog(time) + more, 1) == DEFAULT_HEAD
    ensures (FirstLog(time) + more)[1].key == HEAD_KEY
  {
    var log := FirstLog(time) + more;
    assert log[..1] == [Record(TAIL_KEY, TAIL_KEY, time, false)];
    assert log[..1][..0] == [];
    assert Size(log[..1]) == Size(log[..1][..0]) + RecordSize(log[0]);
  }

  // ---------------------------------------------------------------------
  // The replay loop

  datatype Rebuild = Rebuild(active: Memtable, sealed: seq<seq<Entry>>)

  /** One pass: a full memtable is sealed, then the record is inserted at its running offset. */
  function Load(m: Rebuild, capacity: nat, e: Entry): (m': Rebuild)
  {
    if Full(m.active, capacity, |e.key|) then Rebuild(Inserted(EmptyTable, e), m.sealed + [m.active.entries])
    else m.(active := Inserted(m.active, e))
  }

  function EntryAt(head: nat, rs: seq<Record>, n: nat): (e: Entry)
    requires n < |rs|
  {
    Entry(rs[n].key, head + Size(rs[..n]), rs[n].time, rs[n].tomb)
  }

  /** `recover_memtable`, after `rs` has been read from `head` on. The record at the head itself is
      skipped. */
  function Replayed(capacity: nat, head: nat, rs: seq<Record>): (m: Rebuild)
  {
    if |rs| <= 1 then Rebuild(EmptyTable, []) else
    Load(Replayed(capacity, head, rs[..|rs| - 1]), capacity, EntryAt(head, rs, |rs| - 1))
  }

  /** The store after a recovery from the `n`-th saved head, if the log could be read from there. The meta
      file then holds that pair and no other. */
  function Recover(s: State, capacity: nat, n: nat): (r: Result<State>)
    requires n < |s.saved|
  {
    var (head, tail) := s.saved[n];
    match ParseAll(File(s), head)
    case Err(e) => Err(e)
    case Ok(rs) =>
      var m := Replayed(capacity, head, rs);
      Ok(s.(active := m.active, sealed := m.sealed, gc := [], link := ToActive, tail := tail, saved := [s.saved[n]]))
  }

  /** The running sum of the replay is the offset the record was appended at. */
  lemma RunningOffset(log: seq<Record>, h: nat, n: nat)
    requires h + n <= |log|
    ensures OffsetOf(log, h) + Size(log[h..][..n]) == OffsetOf(log, h + n)
  {
    hide Size;
    assert log[..h + n] == log[..h] + log[h..][..n];
    SizeConcat(log[..h], log[h..][..n]);
  }

  lemma EntryAtIs(log: seq<Record>, h: nat, rs: seq<Record>, n: nat)
    requires h + |rs| <= |log| && rs == log[h..h + |rs|] && n < |rs|
    ensures EntryAt(OffsetOf(log, h), rs, n)
         == Entry(log[h + n].key, OffsetOf(log, h + n), log[h + n].time, log[h + n].tomb)
  {
    hide Size;
    RunningOffset(log, h, n);
    assert log[h..][..n] == rs[..n];
  }

  /** A replayed record is a version of its key. */
  lemma ReplayedVersion(log: seq<Record>, now: nat, i: nat)
    requires i < |log| && LogTimed(log, now, log[i].key)
    ensures VersionOk(log, Entry(log[i].key, OffsetOf(log, i), log[i].time, log[i].tomb)) && log[i].time < now
  {
    hide OffsetOf;
    assert Backed(log, Entry(log[i].key, OffsetOf(log, i), log[i].time, log[i].tomb), i);
  }

  // ---------------------------------------------------------------------
  // What the replay makes of one key

  ghost predicate InRebuild(m: Rebuild, e: Entry)
  {
    Find(m.active.entries, e.key) == Some(e) || Version(m.sealed, e)
  }

  ghost predicate Reaches(m: Rebuild, k: Key, offset: nat)
  {
    exists e: Entry :: e.key == k && InRebuild(m, e) && e.offset >= offset
  }

  /** After `n` records from `h` on: every version stands for one of them, the active memtable
      holds none older than the sealed ones, and each record of the key after the first is at or before
      some version. */
  ghost predicate Rebuilt(m: Rebuild, log: seq<Record>, now: nat, h: nat, n: nat, k: Key)
    requires h + n <= |log|
  {
    Sorted(m.active.entries) && AllSorted(m.sealed) &&
    (forall e: Entry | e.key == k && InRebuild(m, e) ::
       VersionOk(log, e) && e.time < now && OffsetOf(log, h) < e.offset < OffsetOf(log, h + n)) &&
    (Find(m.active.entries, k).Some? ==> AtMost(m.sealed, k, Find(m.active.entries, k).value.offset)) &&
    (forall i | h < i < h + n && log[i].key == k :: Reaches(m, k, OffsetOf(log, i)))
  }

  lemma LoadVersions(m: Rebuild, capacity: nat, e: Entry, k: Key, x: Entry)
    requires Sorted(m.active.entries) && x.key == k
    ensures InRebuild(Load(m, capacity, e), x) ==> x == e || InRebuild(m, x)
    ensures InRebuild(m, x) ==>
              InRebuild(Load(m, capacity, e), x) || (k == e.key && Find(m.active.entries, k) == Some(x))
    ensures e.key == k ==> Find(Load(m, capacity, e).active.entries, k) == Some(e)
    ensures e.key != k && Find(Load(m, capacity, e).active.entries, k).Some? ==>
              Find(Load(m, capacity, e).active.entries, k) == Find(m.active.entries, k) &&
                Load(m, capacity, e).sealed == m.sealed
    ensures Sorted(Load(m, capacity, e).active.entries)
  {
    hide Find, Version, Sorted, InsertSorted, Less;
    EmptySorted();
    FindNone(k);
    InsertFinds([], e, k);
    InsertKeepsSorted([], e);
    InsertFinds(m.active.entries, e, k);
    InsertKeepsSorted(m.active.entries, e);
    VersionPush(m.sealed, m.active.entries, x);
  }

  lemma LoadSorted(m: Rebuild, capacity: nat, e: Entry)
    requires AllSorted(m.sealed) && Sorted(m.active.entries)
    ensures AllSorted(Load(m, capacity, e).sealed)
  {
    hide Sorted, InsertSorted;
  }

  lemma LoadKeeps(m: Rebuild, capacity: nat, log: seq<Record>, now: nat, h: nat, n: nat, k: Key)
    requires h + n < |log| && n >= 1 && Rebuilt(m, log, now, h, n, k) && LogTimed(log, now, k)
    ensures Rebuilt(Load(m, capacity, Entry(log[h + n].key, OffsetOf(log, h + n), log[h + n].time, log[h + n].tomb)),
                    log, now, h, n + 1, k)
  {
    hide Find, Version, Sorted, InsertSorted, OffsetOf, VersionOk, Load, InRebuild, LogTimed;
    var e := Entry(log[h + n].key, OffsetOf(log, h + n), log[h + n].time, log[h + n].tomb);
    var m' := Load(m, capacity, e);
    LoadSorted(m, capacity, e);
    LoadVersions(m, capacity, e, k, Entry(k, 0, 0, false));
    OffsetMonotone(log, h + n, h + n + 1);
    OffsetMonotone(log, h, h + n);
    if e.key == k {
      ReplayedVersion(log, now, h + n);
    }
    forall x: Entry | x.key == k && InRebuild(m', x)
      ensures VersionOk(log, x) && x.time < now && OffsetOf(log, h) < x.offset < OffsetOf(log, h + n + 1)
    {
      LoadVersions(m, capacity, e, k, x);
    }
    LoadTop(m, m', capacity, e, k, log, now, h, n);
    forall i | h < i < h + (n + 1) && log[i].key == k
      ensures Reaches(m', k, OffsetOf(log, i))
    {
      if e.key == k {
        OffsetMonotone(log, i, h + n);
        assert InRebuild(m', e) by { InActive(m', e); }
      } else {
        var x: Entry :| x.key == k && InRebuild(m, x) && x.offset >= OffsetOf(log, i);
        LoadVersions(m, capacity, e, k, x);
      }
    }
  }

  lemma InActive(m: Rebuild, e: Entry)
    requires Find(m.active.entries, e.key) == Some(e)
    ensures InRebuild(m, e)
  {
  }

  lemma InSealed(m: Rebuild, e: Entry)
    requires Version(m.sealed, e)
    ensures InRebuild(m, e)
  {
  }

  lemma LoadTop(m: Rebuild, m': Rebuild, capacity: nat, e: Entry, k: Key, log: seq<Record>, now: nat, h: nat, n: nat)
    requires h + n <= |log| && m' == Load(m, capacity, e) && Rebuilt(m, log, now, h, n, k)
    requires e.key == k ==> e.offset >= OffsetOf(log, h + n)
    ensures Find(m'.active.entries, k).Some? ==> AtMost(m'.sealed, k, Find(m'.active.entries, k).value.offset)
  {
    hide Find, Version, Sorted, InsertSorted, OffsetOf, VersionOk, Load, InRebuild;
    LoadVersions(m, capacity, e, k, Entry(k, 0, 0, false));
    if e.key == k {
      forall x: Entry | x.key == k && Version(m'.sealed, x)
        ensures x.offset <= e.offset
      {
        InSealed(m', x);
        LoadVersions(m, capacity, e, k, x);
      }
    }
  }

  lemma NothingRebuilt(log: seq<Record>, now: nat, h: nat, n: nat, k: Key)
    requires n <= 1 && h + n <= |log|
    ensures Rebuilt(Rebuild(EmptyTable, []), log, now, h, n, k)
  {
    hide OffsetOf, VersionOk;
    EmptySorted();
    FindNone(k);
  }

  lemma {:induction false} ReplayKeeps(capacity: nat, log: seq<Record>, now: nat, h: nat, rs: seq<Record>, k: Key)
    requires h + |rs| <= |log| && rs == log[h..h + |rs|] && LogTimed(log, now, k)
    ensures Rebuilt(Replayed(capacity, OffsetOf(log, h), rs), log, now, h, |rs|, k)
    decreases |rs|
  {
    hide Rebuilt, Load, OffsetOf, EntryAt, LogTimed;
    if |rs| <= 1 {
      NothingRebuilt(log, now, h, |rs|, k);
    } else {
      var n := |rs| - 1;
      assert rs[..n] == log[h..h + n];
      ReplayKeeps(capacity, log, now, h, rs[..n], k);
      EntryAtIs(log, h, rs, n);
      LoadKeeps(Replayed(capacity, OffsetOf(log, h), rs[..n]), capacity, log, now, h, n, k);
    }
  }

  // ---------------------------------------------------------------------
  // The recovered store

  /** The state a recovery from record `h` rebuilds. */
  function FromRecord(s: State, capacity: nat, n: nat, h: nat): (s': State)
    requires n < |s.saved| && h < |s.log|
  {
    var m := Replayed(capacity, OffsetOf(s.log, h), s.log[h..]);
    s.(active := m.active, sealed := m.sealed, gc := [], link := ToActive, tail := s.saved[n].1, saved := [s.saved[n]])
  }

  /** Recovery from a saved head succeeds if and only if the head has not been punched away, and then
      it replays exactly the records from the head on, at the offsets they were appended at. */
  lemma RecoverReads(s: State, clock: nat -> nat, capacity: nat, n: nat, h: nat)
    requires Inv(s, clock) && n < |s.saved| && h < |s.log| && OffsetOf(s.log, h) == s.saved[n].0
    ensures Recover(s, capacity, n)
         == if s.hole <= s.saved[n].0 then Ok(FromRecord(s, capacity, n, h)) else Err(UnexpectedEof)
  {
    hide File, Size, OffsetOf, Replayed, ParseAll;
    FileHolds(s, clock);
    var p: nat :| p <= |s.log| && OffsetOf(s.log, p) == s.hole;
    Replay(File(s), s.log, s.hole, p, h);
    if h >= p {
      OffsetMonotone(s.log, p, h);
    } else {
      OffsetMonotone(s.log, h, p);
    }
  }

  lemma RebuiltTop(s: State, m: Rebuild, now: nat, h: nat, k: Key)
    requires h < |s.log| && Rebuilt(m, s.log, now, h, |s.log| - h, k)
    ensures AllOk(s.log, now, m.sealed, k) && EntryOk(s.log, now, Find(m.active.entries, k))
    ensures var a, t, l := Find(m.active.entries, k), Newest(m.sealed, k), Last(s.log, k);
            (a.Some? || t.Some? <==> l.Some? && l.value > h) &&
            (a.Some? ==> a.value.key == k && a.value.offset == OffsetOf(s.log, l.value)) &&
            (a.None? && t.Some? ==> t.value.key == k && t.value.offset == OffsetOf(s.log, l.value))
  {
    hide Find, Newest, Version, OffsetOf, VersionOk, Sorted, InRebuild;
    var a, t, l := Find(m.active.entries, k), Newest(m.sealed, k), Last(s.log, k);
    FindMember(m.active.entries, k);
    if a.Some? {
      InActive(m, a.value);
      VersionAtMostLast(s.log, a.value);
      AfterHead(s.log, h, l.value, a.value.offset);
    }
    forall e: Entry | e.key == k && Version(m.sealed, e)
      ensures InRebuild(m, e)
    {
      InSealed(m, e);
    }
    NewestIsLast(s.log, now, m.sealed, k);
    NewestKey(m.sealed, k);
    if t.Some? {
      VersionAtMostLast(s.log, t.value);
      AfterHead(s.log, h, l.value, t.value.offset);
    }
    if l.Some? && l.value > h {
      assert Reaches(m, k, OffsetOf(s.log, l.value));
      var e: Entry :| e.key == k && InRebuild(m, e) && e.offset >= OffsetOf(s.log, l.value);
      InEither(m, e);
    }
  }

  lemma InEither(m: Rebuild, e: Entry)
    requires InRebuild(m, e)
    ensures Find(m.active.entries, e.key) == Some(e) || Version(m.sealed, e)
  {
  }

  lemma AfterHead(log: seq<Record>, h: nat, l: nat, offset: nat)
    requires h < |log| && l < |log| && OffsetOf(log, h) < offset <= OffsetOf(log, l)
    ensures l > h
  {
    hide OffsetOf;
    if l <= h {
      OffsetMonotone(log, l, h);
    }
  }

  /** The state without its memtables. */
  function TablesOnly(s: State): (s': State) { s.(gc := [], active := EmptyTable, sealed := []) }

  /** The key does without the memtables and the log up to record `h`. */
  ghost predicate SettledAt(s: State, k: Key, h: nat)
  {
    Last(s.log, k).Some? && Last(s.log, k).value <= h ==> UpToDate(TablesOnly(s), k)
  }

  /** So it does with the `n`-th saved head. */
  ghost predicate Settled(s: State, n: nat, k: Key)
    requires n < |s.saved|
  {
    forall h: nat | h < |s.log| && OffsetOf(s.log, h) == s.saved[n].0 :: SettledAt(s, k, h)
  }

  /** An entry for the last record is right about the key. */
  lemma LastAnswers(log: seq<Record>, now: nat, x: Entry)
    requires EntryOk(log, now, Some(x)) && x.offset == OffsetOf(log, Last(log, x.key).value)
    ensures Answers(log, Some(x), x.key)
  {
    hide OffsetOf;
    VersionAtMostLast(log, x);
  }

  lemma TablesOnlySelect(s: State, k: Key)
    ensures Select(TablesOnly(s), k) == Newest(s.tables, k)
  {
    FindNone(k);
  }

  /** The replayed store is right about a record after the head, and leaves what came before it to the
      tables. */
  lemma RecoveredView(s: State, now: nat, capacity: nat, n: nat, h: nat, k: Key)
    requires LogTimed(s.log, now, k) && n < |s.saved| && h < |s.log|
    ensures var m, l := Replayed(capacity, OffsetOf(s.log, h), s.log[h..]), Last(s.log, k);
            Rebuilt(m, s.log, now, h, |s.log| - h, k) &&
            (l.Some? && l.value > h ==> UpToDate(FromRecord(s, capacity, n, h), k)) &&
            (l.None? || l.value <= h ==> Find(m.active.entries, k).None? && Newest(m.sealed, k).None? &&
                                         Select(FromRecord(s, capacity, n, h), k) == Newest(s.tables, k))
  {
    hide Find, Newest, Version, OffsetOf, VersionOk, Sorted, Replayed, Rebuilt, Answers;
    var m := Replayed(capacity, OffsetOf(s.log, h), s.log[h..]);
    assert s.log[h..] == s.log[h..h + |s.log[h..]|];
    ReplayKeeps(capacity, s.log, now, h, s.log[h..], k);
    RebuiltTop(s, m, now, h, k);
    FindNone(k);
    NewestIsLast(s.log, now, m.sealed, k);
    var a, t, l := Find(m.active.entries, k), Newest(m.sealed, k), Last(s.log, k);
    if l.Some? && l.value > h {
      LastAnswers(s.log, now, if a.Some? then a.value else t.value);
    }
  }

  /** Whatever was flushed before the crash: a key is read right after the recovery if and only if its last
      record lies after the head, or the SSTables alone are right about it. */
  lemma RecoverExactly(s: State, now: nat, capacity: nat, n: nat, h: nat, k: Key)
    requires LogTimed(s.log, now, k) && n < |s.saved| && h < |s.log|
    requires Last(s.log, k).None? ==> Newest(s.tables, k).None?
    ensures UpToDate(FromRecord(s, capacity, n, h), k) <==> SettledAt(s, k, h)
  {
    hide Find, Newest, OffsetOf, Replayed, Rebuilt, Tiered;
    RecoveredView(s, now, capacity, n, h, k);
    TablesOnlySelect(s, k);
  }

  /** Every sealed memtable was flushed. */
  predicate AllFlushed(s: State)
  {
    forall i | 0 <= i < |s.sealed| :: s.sealed[i] == []
  }

  lemma {:induction false} FlushedNewest(sealed: seq<seq<Entry>>, k: Key)
    requires forall i | 0 <= i < |sealed| :: sealed[i] == []
    ensures Newest(sealed, k) == None
  {
    FindNone(k);
    if sealed != [] {
      FlushedNewest(sealed[..|sealed| - 1], k);
    }
  }

  /** If every sealed memtable was flushed, every saved head leaves every key settled. */
  lemma FlushedIsSettled(s: State, now: nat, n: nat, k: Key)
    requires KeyInv(s, now, k) && AllFlushed(s) && n < |s.saved|
    ensures Settled(s, n, k)
  {
    hide Find, Newest, OffsetOf, Sound, Layered, LogTimed, Unpunched;
    FlushedNewest(s.sealed, k);
    FindNone(k);
    TablesOnlySelect(s, k);
    forall h: nat | h < |s.log| && OffsetOf(s.log, h) == s.saved[n].0
      ensures SettledAt(s, k, h)
    {
      var h': nat :| h' < |s.log| && OffsetOf(s.log, h') == s.saved[n].0 && CoveredAt(s, k, h');
      OffsetInjective(s.log, h, h');
    }
  }

  /** Recovery from a saved head, however old, keeps the invariant of every key that is settled: the
      recovered store reads as the crashed one did, and can crash again. */
  lemma RecoverKeepsKey(s: State, clock: nat -> nat, now: nat, capacity: nat, n: nat, h: nat, k: Key)
    requires Inv(s, clock) && KeyInv(s, now, k) && SettledAt(s, k, h)
    requires n < |s.saved| && h < |s.log| && OffsetOf(s.log, h) == s.saved[n].0
    ensures KeyInv(FromRecord(s, capacity, n, h), now, k)
  {
    hide Find, Newest, Version, OffsetOf, VersionOk, Sorted, Replayed, Covered, Answers, CoveredAt;
    var s' := FromRecord(s, capacity, n, h);
    var m := Replayed(capacity, OffsetOf(s.log, h), s.log[h..]);
    RecoveredView(s, now, capacity, n, h, k);
    RebuiltTop(s, m, now, h, k);
    FindNone(k);
    NewestIsLast(s.log, now, s.tables, k);
    TablesOnlySelect(s, k);
    var l := Last(s.log, k);
    if l.Some? {
      var e := Entry(k, OffsetOf(s.log, l.value), 0, false);
      LatestIsTop(s.log, now, s.tables, e);
      LatestIsTop(s.log, now, m.sealed, e);
    } else {
      NoVersions(s.log, now, s.tables, k);
    }
    RecoverExactly(s, now, capacity, n, h, k);
    RecoverCovers(s', h, k);
  }

  lemma NoVersions(log: seq<Record>, now: nat, ts: seq<seq<Entry>>, k: Key)
    requires AllOk(log, now, ts, k) && Last(log, k).None?
    ensures Newest(ts, k).None?
  {
    hide Find, Newest, Version, VersionOk;
    NewestIsLast(log, now, ts, k);
    NewestKey(ts, k);
    if Newest(ts, k).Some? {
      VersionAtMostLast(log, Newest(ts, k).value);
    }
  }

  lemma RecoverCovers(s': State, h: nat, k: Key)
    requires h < |s'.log| && UpToDate(s', k)
    requires |s'.saved| == 1 && s'.saved[0].0 == OffsetOf(s'.log, h) && s'.gc == []
    requires Last(s'.log, k).Some? && Last(s'.log, k).value <= h ==>
               Find(s'.active.entries, k).None? && Newest(s'.sealed, k).None?
    ensures Covered(s', k)
  {
    hide Find, Newest, OffsetOf, Answers;
    FindNone(k);
    assert CoveredAt(s', k, h);
    assert HeadCovered(s', k, s'.saved[0].0);
  }

  lemma {:induction false} ReplayRecent(capacity: nat, log: seq<Record>, h: nat, rs: seq<Record>)
    requires h + |rs| <= |log| && rs == log[h..h + |rs|] && log != []
    ensures RecordAt(log, Replayed(capacity, OffsetOf(log, h), rs).active.recent)
    decreases |rs|
  {
    hide OffsetOf, EntryAt, InsertSorted;
    OffsetZero(log);
    assert RecordAt(log, 0);
    if |rs| > 1 {
      var n := |rs| - 1;
      assert rs[..n] == log[h..h + n];
      ReplayRecent(capacity, log, h, rs[..n]);
      EntryAtIs(log, h, rs, n);
      assert RecordAt(log, OffsetOf(log, h + n));
    }
  }

  lemma RecoverKeepsInv(s: State, clock: nat -> nat, now: nat, capacity: nat, n: nat, h: nat)
    requires Inv(s, clock) && n < |s.saved| && h < |s.log|
    ensures Inv(FromRecord(s, capacity, n, h), clock)
  {
    hide OffsetOf, Sorted, Replayed, Boundary, RecordAt;
    assert s.log[h..] == s.log[h..h + |s.log[h..]|];
    ReplaySorted(capacity, OffsetOf(s.log, h), s.log[h..]);
    ReplayRecent(capacity, s.log, h, s.log[h..]);
    EmptySorted();
  }

  lemma {:induction false} ReplaySorted(capacity: nat, head: nat, rs: seq<Record>)
    ensures Sorted(Replayed(capacity, head, rs).active.entries) && AllSorted(Replayed(capacity, head, rs).sealed)
    decreases |rs|
  {
    hide Sorted, InsertSorted, EntryAt;
    EmptySorted();
    if |rs| > 1 {
      ReplaySorted(capacity, head, rs[..|rs| - 1]);
      var e := EntryAt(head, rs, |rs| - 1);
      InsertKeepsSorted(Replayed(capacity, head, rs[..|rs| - 1]).active.entries, e);
      InsertKeepsSorted([], e);
    }
  }

  // ---------------------------------------------------------------------
  // How the replayed records are spread over the memtables

  /** The entries of the records after the first, each at the place where its record starts. */
  function ReplayEntries(head: nat, rs: seq<Record>): (es: seq<Entry>)
    ensures |es| == if rs == [] then 0 else |rs| - 1
    ensures forall n | 0 <= n < |es| ::
              es[n] == Entry(rs[n + 1].key, head + Size(rs[..n + 1]), rs[n + 1].time, rs[n + 1].tomb)
  {
    if rs == [] then [] else seq(|rs| - 1, n requires 0 <= n < |rs| - 1 => EntryAt(head, rs, n + 1))
  }

  /** What entries add to the size of a memtable. */
  function Weight(es: seq<Entry>): (n: nat)
  {
    if es == [] then 0 else Weight(es[..|es| - 1]) + |es[|es| - 1].key| + 13
  }

  function Flat(runs: seq<seq<Entry>>): (es: seq<Entry>)
  {
    if runs == [] then [] else Flat(runs[..|runs| - 1]) + runs[|runs| - 1]
  }

  /** Only the first run may be empty. It, and every run of two or more, stays below the capacity. A run follows
      another only if its first entry would have made that one reach the capacity. */
  predicate Apart(runs: seq<seq<Entry>>, i: nat, capacity: nat)
    requires i < |runs|
  {
    (i > 0 ==> runs[i] != [] && Weight(runs[i - 1]) + |runs[i][0].key| + 13 >= capacity) &&
    (|runs[i]| > 1 || (i == 0 && runs[i] != []) ==> Weight(runs[i]) < capacity)
  }

  /** The entries, in order, are cut into consecutive runs: one for each memtable, the last for the active one. */
  ghost predicate Cut(runs: seq<seq<Entry>>, es: seq<Entry>, capacity: nat)
  {
    runs != [] && Flat(runs) == es && forall i: nat | i < |runs| :: Apart(runs, i, capacity)
  }

  /** The memtables hold the runs. */
  ghost predicate Spread(m: Rebuild, runs: seq<seq<Entry>>)
  {
    |runs| == |m.sealed| + 1 && m.active == InsertAll(EmptyTable, runs[|m.sealed|]) &&
    forall i | 0 <= i < |m.sealed| :: m.sealed[i] == InsertAll(EmptyTable, runs[i]).entries
  }

  lemma {:induction false} WeightIsSize(es: seq<Entry>)
    ensures InsertAll(EmptyTable, es).size == Weight(es)
  {
    hide InsertSorted;
    if es != [] {
      WeightIsSize(es[..|es| - 1]);
    }
  }

  lemma FlatPush(runs: seq<seq<Entry>>, run: seq<Entry>)
    ensures Flat(runs + [run]) == Flat(runs) + run
  {
    assert (runs + [run])[..|runs|] == runs;
  }

  lemma WeightPush(es: seq<Entry>, e: Entry)
    ensures Weight(es + [e]) == Weight(es) + |e.key| + 13
  {
    assert (es + [e])[..|es|] == es;
  }

  /** Changing the last run leaves the others apart. */
  lemma ApartBefore(runs: seq<seq<Entry>>, runs': seq<seq<Entry>>, n: nat, capacity: nat)
    requires n <= |runs| && n <= |runs'| && runs[..n] == runs'[..n]
    requires forall i: nat | i < |runs| :: Apart(runs, i, capacity)
    ensures forall i: nat | i < n :: Apart(runs', i, capacity)
  {
    hide Weight;
    forall i: nat | i < n
      ensures Apart(runs', i, capacity)
    {
      assert Apart(runs, i, capacity);
      assert runs[..n][i] == runs'[..n][i];
      if i > 0 {
        assert runs[..n][i - 1] == runs'[..n][i - 1];
      }
    }
  }

  lemma EntryJoins(runs: seq<seq<Entry>>, es: seq<Entry>, capacity: nat, e: Entry)
    requires Cut(runs, es, capacity)
    requires Weight(runs[|runs| - 1]) + |e.key| + 13 < capacity
    ensures Cut(runs[..|runs| - 1] + [runs[|runs| - 1] + [e]], es + [e], capacity)
  {
    hide Weight, Flat;
    var n := |runs| - 1;
    var last := runs[n];
    var runs' := runs[..n] + [last + [e]];
    assert runs == runs[..n] + [last];
    FlatPush(runs[..n], last);
    FlatPush(runs[..n], last + [e]);
    assert Flat(runs[..n]) + (last + [e]) == (Flat(runs[..n]) + last) + [e];
    WeightPush(last, e);
    ApartBefore(runs, runs', n, capacity);
    assert Apart(runs, n, capacity);
    if n > 0 {
      assert runs'[n - 1] == runs[n - 1] && (last + [e])[0] == last[0];
    }
    assert Apart(runs', n, capacity);
  }

  lemma EntryStarts(runs: seq<seq<Entry>>, es: seq<Entry>, capacity: nat, e: Entry)
    requires Cut(runs, es, capacity)
    requires Weight(runs[|runs| - 1]) + |e.key| + 13 >= capacity
    ensures Cut(runs + [[e]], es + [e], capacity)
  {
    hide Weight, Flat;
    FlatPush(runs, [e]);
    ApartBefore(runs, runs + [[e]], |runs|, capacity);
    assert Apart(runs + [[e]], |runs|, capacity);
  }

  lemma InsertNone(m: Memtable)
    ensures InsertAll(m, []) == m
  {
  }

  lemma InsertAllPush(m: Memtable, es: seq<Entry>, e: Entry)
    ensures InsertAll(m, es + [e]) == Inserted(InsertAll(m, es), e)
  {
    hide Inserted;
    assert (es + [e])[..|es|] == es;
  }

  /** The replay spreads the records after the head over the memtables in such a cut. */
  lemma {:induction false} ReplayIsCut(capacity: nat, head: nat, rs: seq<Record>) returns (runs: seq<seq<Entry>>)
    ensures Cut(runs, ReplayEntries(head, rs), capacity) && Spread(Replayed(capacity, head, rs), runs)
    decreases |rs|
  {
    hide Inserted, InsertAll, Size, Weight, Flat, Apart, Cut;
    if |rs| <= 1 {
      runs := [[]];
      InsertNone(EmptyTable);
      assert ReplayEntries(head, rs) == [];
      EmptyCut(capacity);
    } else {
      var n := |rs| - 1;
      var before := ReplayIsCut(capacity, head, rs[..n]);
      var e := EntryAt(head, rs, n);
      ReplayMore(head, rs);
      var m := |before| - 1;
      WeightIsSize(before[m]);
      InsertNone(EmptyTable);
      if Full(Replayed(capacity, head, rs[..n]).active, capacity, |e.key|) {
        EntryStarts(before, ReplayEntries(head, rs[..n]), capacity, e);
        runs := before + [[e]];
        InsertAllPush(EmptyTable, [], e);
        assert [] + [e] == [e];
      } else {
        EntryJoins(before, ReplayEntries(head, rs[..n]), capacity, e);
        runs := before[..m] + [before[m] + [e]];
        InsertAllPush(EmptyTable, before[m], e);
      }
    }
  }

  lemma EmptyCut(capacity: nat)
    ensures Cut([[]], [], capacity)
  {
    FlatPush([], []);
    assert Apart([[]], 0, capacity);
  }

  lemma ReplayMore(head: nat, rs: seq<Record>)
    requires |rs| > 1
    ensures ReplayEntries(head, rs) == ReplayEntries(head, rs[..|rs| - 1]) + [EntryAt(head, rs, |rs| - 1)]
  {
    hide Size;
    var n := |rs| - 1;
    forall i | 0 <= i < n - 1
      ensures ReplayEntries(head, rs)[i] == ReplayEntries(head, rs[..n])[i]
    {
      assert rs[..n][..i + 1] == rs[..i + 1];
    }
  }

  /** The last entry is alone in its run. */
  predicate Alone(runs: seq<seq<Entry>>)
    requires runs != []
  {
    |runs| > 1 && |runs[|runs| - 1]| == 1
  }

  /** The runs without the last entry. */
  function Shorter(runs: seq<seq<Entry>>): (r: seq<seq<Entry>>)
    requires runs != []
  {
    var n := |runs| - 1;
    if Alone(runs) || runs[n] == [] then runs[..n] else runs[..n] + [runs[n][..|runs[n]| - 1]]
  }

  lemma LastRun(runs: seq<seq<Entry>>, es: seq<Entry>, capacity: nat)
    requires Cut(runs, es, capacity) && es != []
    ensures runs[|runs| - 1] != []
    ensures Flat(runs[..|runs| - 1]) + runs[|runs| - 1] == es
  {
    var n := |runs| - 1;
    assert Apart(runs, n, capacity);
  }

  lemma CutShrinks(runs: seq<seq<Entry>>, es: seq<Entry>, capacity: nat)
    requires Cut(runs, es, capacity) && es != []
    ensures Cut(Shorter(runs), es[..|es| - 1], capacity)
    ensures runs[|runs| - 1] != []
    ensures var e, less := es[|es| - 1], Shorter(runs);
            if Alone(runs) then runs == less + [[e]] && Weight(less[|less| - 1]) + |e.key| + 13 >= capacity
            else runs == less[..|less| - 1] + [less[|less| - 1] + [e]] &&
                 Weight(less[|less| - 1]) + |e.key| + 13 < capacity
  {
    hide Weight, Flat;
    var n := |runs| - 1;
    var last, less := runs[n], Shorter(runs);
    LastRun(runs, es, capacity);
    assert Apart(runs, n, capacity);
    var e := last[|last| - 1];
    assert e == es[|es| - 1];
    if Alone(runs) {
      assert Flat(less) == es[..|es| - 1];
      ApartBefore(runs, less, n, capacity);
      assert last == [e] && runs == less + [[e]];
    } else {
      var init := last[..|last| - 1];
      assert last == init + [e];
      FlatPush(runs[..n], init);
      assert Flat(less) == es[..|es| - 1];
      ApartBefore(runs, less, n, capacity);
      WeightPush(init, e);
      assert less[..n] == runs[..n];
      assert Apart(less, n, capacity) by {
        if n > 0 {
          assert less[n - 1] == runs[n - 1] && init[0] == last[0];
        }
      }
    }
  }

  /** These rules leave no choice. */
  lemma {:induction false} CutUnique(a: seq<seq<Entry>>, b: seq<seq<Entry>>, es: seq<Entry>, capacity: nat)
    requires Cut(a, es, capacity) && Cut(b, es, capacity)
    ensures a == b
    decreases |es|
  {
    hide Flat, Weight, Apart, Shorter;
    if es == [] {
      NothingCut(a, capacity);
      NothingCut(b, capacity);
    } else {
      CutShrinks(a, es, capacity);
      CutShrinks(b, es, capacity);
      CutUnique(Shorter(a), Shorter(b), es[..|es| - 1], capacity);
    }
  }

  lemma NothingCut(runs: seq<seq<Entry>>, capacity: nat)
    requires Cut(runs, [], capacity)
    ensures runs == [[]]
  {
    var n := |runs| - 1;
    assert Flat(runs) == Flat(runs[..n]) + runs[n];
    assert Apart(runs, n, capacity);
  }
}
