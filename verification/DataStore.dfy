/** The store as an object: its operations with the loops they run, each against the step of the state it
    stands for and against the plain map that the store is to its caller.
 */
module DataStores {
  import opened Wrappers
  import opened Bytes
  import opened Entries
  import opened LogCodec
  import opened Merge
  import opened Memtables
  import opened Store
  import opened Recovery
  import opened Collector
  import opened ValueLogFile
  import Runs
  import SsTable
  import StoreSteps

  /** The state is right about every user key that is not lost. */
  ghost predicate AllRight(s: State, clock: nat -> nat, m: map<Key, Value>, lost: iset<Key>)
  {
    Inv(s, clock) && Ticking(clock) && StoreSteps.Small(s, clock(s.tick)) &&
    forall k: Key | UserKey(k) && k !in lost :: Runs.Right(s, clock, m, k)
  }

  /** A step keeps right every key that allows it. */
  lemma StepAllRight(s: State, capacity: nat, clock: nat -> nat, m: map<Key, Value>, lost: iset<Key>,
                     op: Runs.Op, s': State, lost': iset<Key>)
    requires AllRight(s, clock, m, lost) && Runs.Exec(s, capacity, clock, op) == Some(s') && lost <= lost'
    requires forall k: Key | UserKey(k) && k !in lost' :: Runs.Allowed(s, op, k)
    requires StoreSteps.Small(s', clock(s'.tick))
    ensures AllRight(s', clock, Runs.Apply(m, op), lost')
  {
    hide Inv, Runs.Right, Runs.Exec, Runs.Allowed, Runs.Apply, StoreSteps.Small;
    Runs.StepKeepsInv(s, capacity, clock, op, s');
    forall k: Key | UserKey(k) && k !in lost'
      ensures Runs.Right(s', clock, Runs.Apply(m, op), k)
    {
      Runs.StepRight(s, capacity, clock, m, op, s', k);
    }
  }

  lemma NewAllRight(clock: nat -> nat)
    requires Ticking(clock) && clock(1) <= U64_LIMIT
    ensures AllRight(NewStore(clock), clock, map[], iset{})
  {
    hide Runs.Right, Inv;
    Runs.NewStoreInv(clock);
    FirstSize(clock(0));
    assert NewStore(clock).tick == 1;
    forall k: Key | UserKey(k)
      ensures Runs.Right(NewStore(clock), clock, map[], k)
    {
      Runs.NewStoreRight(clock, k);
    }
  }

  lemma FirstSize(time: nat)
    ensures Size(FirstLog(time)) == 50
  {
    var log := FirstLog(time);
    assert log[..1] == [log[0]] && log[..1][..0] == [];
    assert Size(log[..1]) == Size(log[..1][..0]) + RecordSize(log[0]);
  }

  /** The newest-wins loop over the sealed memtables and over the SSTables. */
  method SearchNewest(tables: seq<seq<Entry>>, key: Key) returns (r: Option<Entry>)
    ensures r == Newest(tables, key)
  {
    r := None;
    var insertTime := 0;
    var i := 0;
    while i < |tables|
      invariant 0 <= i <= |tables|
      invariant r == Newest(tables[..i], key)
      invariant insertTime == if r.Some? then r.value.time else 0
    {
      assert tables[..i + 1][..i] == tables[..i];
      var val := Find(tables[i], key);
      if val.Some? && val.value.time > insertTime {
        insertTime := val.value.time;
        r := val;
      }
      i := i + 1;
    }
    assert tables[..i] == tables;
  }

  lemma FileGrows(log: seq<Record>, hole: nat, r: Record)
    requires hole <= Size(log)
    ensures FileOf(log + [r], hole) == FileOf(log, hole) + Serialize(r)
  {
    hide Serialize, SerializeAll, Size, Zeros;
    SerializeAppend(log, r);
    DropConcat(Zeros(hole), SerializeAll(log), Serialize(r), hole);
  }

  lemma SerializeAppend(log: seq<Record>, r: Record)
    ensures SerializeAll(log + [r]) == SerializeAll(log) + Serialize(r)
    ensures |SerializeAll(log)| == Size(log)
  {
    hide Serialize, Size;
    assert (log + [r])[..|log|] == log;
  }

  lemma DropConcat(z: seq<Byte>, a: seq<Byte>, b: seq<Byte>, n: nat)
    requires n <= |a|
    ensures z + (a + b)[n..] == z + a[n..] + b
  {
    assert (a + b)[n..] == a[n..] + b;
  }

  lemma FileSize(log: seq<Record>, hole: nat)
    ensures |FileOf(log, hole)| == Size(log)
  {
    hide SerializeAll, Size;
  }

  lemma FilePunched(log: seq<Record>, hole: nat, hole': nat)
    requires hole <= hole' <= Size(log)
    ensures |FileOf(log, hole)| == Size(log)
    ensures FileOf(log, hole') == Zeros(hole') + FileOf(log, hole)[hole'..]
  {
    hide SerializeAll, Size;
    assert FileOf(log, hole)[hole'..] == SerializeAll(log)[hole'..];
  }

  lemma PendingWithin(s: State, clock: nat -> nat)
    requires Inv(s, clock) && s.gc != []
    ensures s.hole <= s.tail + s.pending <= Size(s.log)
  {
    hide Size;
    var h: nat :| h <= |s.log| && OffsetOf(s.log, h) == s.tail + s.pending;
    OffsetMonotone(s.log, h, |s.log|);
    OffsetEnd(s.log);
  }

  class DataStore {
    const capacity: nat
    const clock: nat -> nat
    const valLog: ValueLog
    var active: Memtable
    var readOnly: seq<seq<Entry>>
    var tables: seq<seq<Entry>>
    var gcUpdated: seq<Entry>
    var punchLength: nat
    var gcLink: Link
    var meta: seq<(nat, nat)>
    var tick: nat
    ghost var log: seq<Record>
    ghost var hole: nat
    ghost var contents: map<Key, Value>
    ghost var lost: iset<Key>

    ghost function View(): (s: State)
      reads this, valLog
    {
      State(log, hole, valLog.tailOffset, active, readOnly, tables, gcUpdated, punchLength, gcLink, meta, tick)
    }

    /** The log file holds the log, with the front punched, and the handle knows its size. */
    ghost predicate Valid()
      reads this, valLog, valLog.file
    {
      valLog.InSync() && valLog.file.bytes == FileOf(log, hole) && hole <= Size(log)
    }

    /** To its caller the store is the plain map `contents`, except for the user keys in `lost`. */
    ghost predicate Good()
      reads this, valLog, valLog.file
    {
      Valid() && AllRight(View(), clock, contents, lost)
    }

    /** Offsets fit 32 bits and times 64. */
    ghost predicate Fits()
      reads this, valLog
    {
      StoreSteps.Small(View(), clock(tick))
    }

    /** A new store: the tail and the head record are appended and entered. */
    constructor (capacity: nat, clock: nat -> nat, file: LogFile)
      requires file.bytes == []
      modifies file
      ensures Valid() && View() == NewStore(clock) && valLog.file == file && fresh(valLog)
      ensures this.capacity == capacity && this.clock == clock && contents == map[] && lost == iset{}
      ensures Ticking(clock) && clock(1) <= U64_LIMIT ==> Good()
    {
      this.capacity, this.clock := capacity, clock;
      valLog := new ValueLog(file);
      readOnly, tables, gcUpdated, punchLength, meta, tick := [], [], [], 0, [(DEFAULT_HEAD, 0)], 1;
      active, gcLink := EmptyTable, ToActive;
      log, hole, contents, lost := [], 0, map[], iset{};
      new;
      hide Serialize, InsertSorted, ReadRecord;
      var tailOffset := valLog.Append(TAIL_KEY, TAIL_KEY, clock(0), false);
      var headOffset := valLog.Append(HEAD_KEY, HEAD_KEY, clock(0), false);
      active := Inserted(active, Entry(TAIL_KEY, tailOffset, clock(0), false));
      active := Inserted(active, Entry(HEAD_KEY, headOffset, clock(0), false));
      valLog.headOffset, valLog.tailOffset := headOffset, tailOffset;
      log := FirstLog(clock(0));
      FirstFile(clock(0));
      FirstView(clock);
      if Ticking(clock) && clock(1) <= U64_LIMIT {
        NewAllRight(clock);
      }
    }

    method GetValueFromVlog(x: Option<Entry>) returns (r: Result<Option<Value>>)
      requires Valid()
      ensures r == ReadEntry(View(), x)
    {
      hide ReadRecord;
      if x.None? || x.value.tomb {
        return Ok(None);
      }
      var res := valLog.Get(x.value.offset);
      match res
      case Err(e) => return Err(e);
      case Ok(None) => return Ok(None);
      case Ok(Some((v, tomb))) =>
        if tomb {
          return Ok(None);
        }
        return Ok(Some(v));
    }

    method SearchTiers(key: Key) returns (r: Option<Entry>)
      ensures r == Tiered(View(), key)
    {
      r := Find(active.entries, key);
      if r.None? {
        r := SearchNewest(readOnly, key);
        if r.None? {
          r := SearchNewest(tables, key);
        }
      }
    }

    /** Reads what the plain map holds. */
    method Get(key: Key) returns (r: Result<Option<Value>>)
      requires Valid()
      ensures r == Store.Get(View(), key)
      ensures |key| == 0 ==> r == Err(KeySizeNone)
      ensures |key| > 65536 ==> r == Err(KeyMaxSizeExceeded)
      ensures Good() && UserKey(key) && key !in lost && 1 <= |key| <= 65536 ==> r == Ok(Runs.Lookup(contents, key))
    {
      hide Runs.Right, Inv;
      if Good() && UserKey(key) && key !in lost {
        Runs.GetRight(View(), clock, contents, key);
      }
      var ok := Validate(key, None);
      if ok.Err? {
        return Err(ok.error);
      }
      r := GetValueFromVlog(Find(gcUpdated, key));
      if r.Err? || r.value.Some? {
        return;
      }
      var x := SearchTiers(key);
      r := GetValueFromVlog(x);
    }

    method Put(key: Key, value: Value) returns (r: Result<bool>)
      requires Valid() && Inv(View(), clock)
      modifies this, valLog, valLog.file
      ensures Valid() && View() == Store.Put(old(View()), capacity, clock, key, value)
      ensures r == if |key| == 0 then Err(KeySizeNone)
                   else if |key| > 65536 then Err(KeyMaxSizeExceeded)
                   else if |value| == 0 then Err(ValueSizeNone)
                   else if |value| > 0x1_0000_0000 then Err(ValMaxSizeExceeded)
                   else Ok(true)
      ensures r.Err? ==> View() == old(View())
      ensures contents == Runs.Assign(old(contents), key, value) && lost == old(lost)
      ensures old(Good()) && Fits() ==> Good()
    {
      hide Inv, Size, FileOf, Write, AllRight;
      ghost var s, m := View(), contents;
      var ok := Validate(key, Some(value));
      if ok.Err? {
        return Err(ok.error);
      }
      PutEntry(key, value);
      contents := Runs.Assign(contents, key, value);
      if old(Good()) && Fits() {
        StepAllRight(s, capacity, clock, m, lost, Runs.OpPut(key, value), View(), lost);
      }
      return Ok(true);
    }

    /** The put of a valid key and value: hand over, append, seal if full, insert. */
    method PutEntry(key: Key, value: Value)
      requires Valid() && Inv(View(), clock) && Sized(key) && ValueSized(value)
      modifies this, valLog, valLog.file
      ensures Valid() && View() == Store.Put(old(View()), capacity, clock, key, value)
      ensures contents == old(contents) && lost == old(lost)
    {
      hide Inserted, Inv, Size, FileOf, Sync, Seal, Full;
      if gcUpdated != [] {
        SyncGcUpdateWithStore();
      }
      var isTombstone := value == MARKER;
      var createdAt := clock(tick);
      var offset := Log(key, value, createdAt, isTombstone);
      tick := tick + 1;
      if Full(active, capacity, HEAD_KEY_SIZE) {
        MigrateMemtableToReadOnly();
      }
      active := Inserted(active, Entry(key, offset, createdAt, isTombstone));
    }

    /** Appends a record to the value log and returns where it starts. */
    method Log(key: Key, value: Value, time: nat, tomb: bool) returns (offset: nat)
      requires Valid()
      modifies this`log, valLog`size, valLog.file
      ensures Valid() && View() == old(View()).(log := old(log) + [Record(key, value, time, tomb)])
      ensures offset == Size(old(log))
    {
      hide Serialize, ReadRecord, SerializeAll, Size, FileOf;
      ghost var s, r := View(), Record(key, value, time, tomb);
      FileSize(log, hole);
      offset := valLog.Append(key, value, time, tomb);
      FileGrows(s.log, hole, r);
      SizeAppend(s.log, r);
      log := log + [r];
    }

    method Delete(key: Key) returns (r: Result<bool>)
      requires Valid() && Inv(View(), clock)
      modifies this, valLog, valLog.file
      ensures Valid() && Runs.Exec(old(View()), capacity, clock, Runs.OpDelete(key)) == Some(View())
      ensures r == if |key| == 0 then Err(KeySizeNone)
                   else if |key| > 65536 then Err(KeyMaxSizeExceeded)
                   else if Store.Get(old(View()), key).Err? then Err(Store.Get(old(View()), key).error)
                   else Ok(true)
      ensures contents == (if r.Ok? then old(contents) - {key} else old(contents)) && lost == old(lost)
      ensures old(Good()) && Fits() ==> Good()
    {
      hide Store.Put, Store.Get, Inv, FileOf, AllRight;
      var ok := Validate(key, None);
      if ok.Err? {
        return Err(ok.error);
      }
      var found := Get(key);
      if found.Err? {
        return Err(found.error);
      }
      r := Put(key, MARKER);
    }

    method Update(key: Key, value: Value) returns (r: Result<bool>)
      requires Valid() && Inv(View(), clock)
      modifies this, valLog, valLog.file
      ensures Valid() && Runs.Exec(old(View()), capacity, clock, Runs.OpUpdate(key, value)) == Some(View())
      ensures r == if |key| == 0 then Err(KeySizeNone)
                   else if |key| > 65536 then Err(KeyMaxSizeExceeded)
                   else if |value| == 0 then Err(ValueSizeNone)
                   else if |value| > 0x1_0000_0000 then Err(ValMaxSizeExceeded)
                   else if Store.Get(old(View()), key).Err? then Err(Store.Get(old(View()), key).error)
                   else Ok(true)
      ensures contents == (if r.Ok? then Runs.Assign(old(contents), key, value) else old(contents)) && lost == old(lost)
      ensures old(Good()) && Fits() ==> Good()
    {
      hide Store.Put, Store.Get, Inv, FileOf, AllRight;
      var ok := Validate(key, Some(value));
      if ok.Err? {
        return Err(ok.error);
      }
      var found := Get(key);
      if found.Err? {
        return Err(found.error);
      }
      r := Put(key, value);
    }

    /** The store gets a new memtable; the collector keeps the sealed one. */
    method MigrateMemtableToReadOnly()
      requires Valid()
      modifies this, valLog`headOffset
      ensures Valid() && View() == Seal(old(View()), clock) && contents == old(contents) && lost == old(lost)
    {
      hide InsertSorted, FileOf;
      var head := active.recent;
      valLog.headOffset := head;
      meta := meta + [(head, valLog.tailOffset)];
      active := Inserted(active, Entry(HEAD_KEY, head, clock(tick), false));
      if gcLink.ToActive? {
        gcLink := ToSealed(|readOnly|);
      }
      readOnly := readOnly + [active.entries];
      active := EmptyTable;
      tick := tick + 1;
    }

    method SyncGcUpdateWithStore()
      requires Valid() && Inv(View(), clock) && gcUpdated != []
      modifies this, valLog, valLog.file
      ensures Valid() && View() == Sync(old(View())) && contents == old(contents) && lost == old(lost)
    {
      hide InsertSorted, FileOf, Size, Inv;
      ghost var s := View();
      PendingWithin(s, clock);
      var i := 0;
      assert gcUpdated[..0] == [];
      while i < |gcUpdated|
        invariant 0 <= i <= |gcUpdated| && gcUpdated == s.gc
        invariant View() == s.(active := InsertAll(s.active, s.gc[..i]))
        invariant Valid() && contents == old(contents) && lost == old(lost)
      {
        assert s.gc[..i + 1][..i] == s.gc[..i];
        active := Inserted(active, gcUpdated[i]);
        i := i + 1;
      }
      assert s.gc[..i] == s.gc;
      gcUpdated := [];
      FreeUnusedSpace();
    }

    /** Punches the collected bytes and moves the tail behind them. */
    method FreeUnusedSpace()
      requires Valid() && hole <= valLog.tailOffset + punchLength <= Size(log)
      modifies this`hole, valLog`tailOffset, valLog.file
      ensures Valid() && hole == valLog.tailOffset == old(valLog.tailOffset) + punchLength
    {
      hide FileOf, Size;
      var end := valLog.tailOffset + punchLength;
      FilePunched(log, hole, end);
      valLog.file.bytes := Zeros(end) + valLog.file.bytes[end..];
      valLog.tailOffset := end;
      hole := end;
    }

    /** A flush that completes. The plain map stays the same; a key is lost only when the flush takes a version
        of it from behind an older sealed one. */
    method Flush(i: nat)
      requires Valid() && i < |readOnly|
      modifies this
      ensures Valid() && View() == Store.Flush(old(View()), i) && contents == old(contents)
      ensures lost == old(lost) + iset k: Key | !StoreSteps.InOrder(old(View()), i, k)
      ensures old(Good()) ==> Good()
    {
      hide FileOf, Store.Flush, AllRight, StoreSteps.InOrder, Size, Inv;
      ghost var s, before := View(), lost;
      WriteTable(i);
      FlushFields(s, i);
      lost := lost + iset k: Key | !StoreSteps.InOrder(s, i, k);
      if old(Good()) {
        GoodInv(s, clock, contents, old(lost));
        SmallSame(s, View(), clock);
        StepAllRight(s, capacity, clock, contents, before, Runs.OpFlush(i), View(), lost);
      }
    }

    /** The entries become an SSTable and their map is emptied, which is also the collector's if it shares it. */
    method WriteTable(i: nat)
      requires Valid() && i < |readOnly|
      modifies this`tables, this`readOnly, this`gcLink
      ensures Valid() && View() == Store.Flush(old(View()), i)
    {
      hide FileOf, SsTable.Fits, SsTable.StoredAll, Size;
      if readOnly[i] != [] && SsTable.Fits(readOnly[i]) {
        tables := tables + [SsTable.StoredAll(readOnly[i])];
        readOnly := readOnly[i := []];
        if gcLink == ToSealed(i) {
          gcLink := ToTable([]);
        }
      }
    }

    /** Removing a flushed memtable changes nothing for the caller. */
    method RemoveFlushed(i: nat)
      requires Valid() && i < |readOnly|
      modifies this
      ensures Valid() && View() == DropSealed(old(View()), i) && contents == old(contents) && lost == old(lost)
      ensures old(Good()) ==> Good()
    {
      hide FileOf, AllRight, Size, Inv;
      ghost var s := View();
      if readOnly[i] == [] {
        readOnly := readOnly[..i] + readOnly[i + 1..];
        gcLink := LinkWithout(gcLink, i);
      }
      if old(Good()) {
        GoodInv(s, clock, contents, old(lost));
        SmallSame(s, View(), clock);
        StepAllRight(s, capacity, clock, contents, lost, Runs.OpDrop(i), View(), lost);
      }
    }

    // -------------------------------------------------------------------
    // Garbage collection

    /** The collector's own table. */
    function OwnEntries(): (t: seq<Entry>)
      reads this
    {
      match gcLink
      case ToActive => active.entries
      case ToSealed(i) => if i < |readOnly| then readOnly[i] else []
      case ToTable(es) => es
    }

    /** What the collector sees: its own table is searched in place of the active memtable. */
    method GcSearch(key: Key) returns (r: Option<Entry>)
      ensures r == Seen(View(), key)
    {
      r := Find(OwnEntries(), key);
      if r.None? {
        r := SearchNewest(readOnly, key);
        if r.None? {
          r := SearchNewest(tables, key);
        }
      }
    }

    method GcGet(key: Key) returns (r: Result<Option<(Value, nat)>>)
      requires Valid()
      ensures r == CurrentValue(View(), key)
    {
      hide ReadRecord, FileOf, Seen;
      var x := GcSearch(key);
      if x.None? || x.value.tomb {
        return Ok(None);
      }
      var res := valLog.Get(x.value.offset);
      match res
      case Err(e) => return Err(e);
      case Ok(None) => return Ok(None);
      case Ok(Some((v, tomb))) =>
        if tomb {
          return Ok(None);
        }
        return Ok(Some((v, x.value.time)));
    }

    method JudgeChunk(entries: seq<Record>) returns (r: Result<seq<(Key, Value)>>)
      requires Valid()
      ensures r == JudgeAll(View(), entries)
    {
      hide CurrentValue, FileOf;
      var valid: seq<(Key, Value)> := [];
      var i := 0;
      assert entries[..0] == [];
      while i < |entries|
        invariant 0 <= i <= |entries|
        invariant JudgeAll(View(), entries[..i]) == Ok(valid)
      {
        var e := entries[i];
        assert entries[..i + 1][..i] == entries[..i];
        var current := GcGet(e.key);
        if current.Err? {
          JudgeFails(View(), entries, i + 1);
          return Err(current.error);
        }
        if current.value.Some? && !(e.time < current.value.value.1 || current.value.value.0 == MARKER) {
          valid := valid + [(e.key, current.value.value.0)];
        }
        i := i + 1;
      }
      assert entries[..i] == entries;
      return Ok(valid);
    }

    /** One collection, run to completion between two writes. The plain map stays the same; a key is lost
        only when the collection drops it or brings an old version of it back. */
    method GcHandler(chunkSize: nat)
      requires Valid()
      modifies this, valLog`size, valLog.file
      ensures Valid() && View() == Collect(old(View()), clock, chunkSize) && contents == old(contents)
      ensures lost == old(lost) + iset k: Key | Loses(old(View()), chunkSize, k) || Reverts(old(View()), chunkSize, k)
      ensures old(Good()) && Fits() ==> Good()
    {
      hide AllRight, Collect, Loses, Reverts, Inv, Size, FileOf;
      ghost var s, before := View(), lost;
      CollectChunk(chunkSize);
      lost := lost + iset k: Key | Loses(s, chunkSize, k) || Reverts(s, chunkSize, k);
      if old(Good()) && Fits() {
        StepAllRight(s, capacity, clock, contents, before, Runs.OpCollect(chunkSize), View(), lost);
      }
    }

    /** Reads a chunk, judges it, and rewrites what is valid unless all of it is. */
    method CollectChunk(chunkSize: nat)
      requires Valid()
      modifies this`log, this`gcUpdated, this`active, this`readOnly, this`gcLink, this`punchLength, this`tick
      modifies valLog`size, valLog.file
      ensures Valid() && View() == Collect(old(View()), clock, chunkSize)
    {
      hide JudgeAll, ParseChunk, FileOf, Rewrite;
      if gcUpdated != [] {
        return;
      }
      var chunk := valLog.ReadChunkToGarbageCollect(chunkSize);
      if chunk.Err? {
        return;
      }
      var (entries, totalBytes) := chunk.value;
      var judged := JudgeChunk(entries);
      if judged.Err? {
        return;
      }
      var valid := judged.value;
      if |valid| == |entries| {
        return;
      }
      RewriteValid(totalBytes, valid);
    }

    /** Appends the new tail and the valid entries, and keeps their places for the hand-over. */
    method RewriteValid(totalBytes: nat, valid: seq<(Key, Value)>)
      requires Valid()
      modifies this`log, this`gcUpdated, this`active, this`readOnly, this`gcLink, this`punchLength, this`tick
      modifies valLog`size, valLog.file
      ensures Valid() && View() == Rewrite(old(View()), clock, totalBytes, valid)
    {
      hide FileOf, Appended, NewEntries, PutEach;
      ghost var s := View();
      ghost var recs := Appended(s, clock, totalBytes, valid);
      var synced := WriteToLog(valLog.tailOffset + totalBytes, valid);
      WriteToTable(s, recs, synced);
      PutCommutes(s.(log := s.log + recs), NewEntries(s, clock, recs), totalBytes, s.tick + 2 * |recs|);
      punchLength := totalBytes;
      tick := tick + 2 * (|valid| + 1);
    }

    /** `write_tail_to_disk` and `write_valid_entries_to_vlog`: the keys and where their records start. */
    method WriteToLog(newTail: nat, valid: seq<(Key, Value)>) returns (synced: seq<(Key, nat)>)
      requires Valid() && newTail >= valLog.tailOffset
      modifies this`log, valLog`size, valLog.file
      ensures var s := old(View());
              var recs := Appended(s, clock, newTail - s.tail, valid);
              Valid() && View() == s.(log := s.log + recs) && Placed(s, recs, synced)
    {
      hide FileOf, ToLe, Size, Appended, OffsetOf;
      ghost var s := View();
      ghost var recs := Appended(s, clock, newTail - s.tail, valid);
      AppendedFirst(s, clock, newTail - s.tail, valid);
      LogStep(s.log, recs, 0);
      var offset := Log(TAIL_KEY, ToLe(newTail, 8), clock(tick), false);
      synced := [(TAIL_KEY, offset)];
      var i := 0;
      while i < |valid|
        invariant 0 <= i <= |valid| && |synced| == i + 1
        invariant Valid() && View() == s.(log := s.log + recs[..i + 1])
        invariant forall j | 0 <= j <= i :: synced[j] == (recs[j].key, OffsetOf(s.log + recs, |s.log| + j))
      {
        LogStep(s.log, recs, i + 1);
        AppendedNext(s, clock, newTail - s.tail, valid, i);
        offset := Log(valid[i].0, valid[i].1, clock(tick + 1 + i), false);
        synced := synced + [(valid[i].0, offset)];
        i := i + 1;
      }
      assert recs[..i + 1] == recs;
    }

    /** `write_valid_entries_to_store`: the entries get the time of this loop. */
    method WriteToTable(ghost s: State, ghost recs: seq<Record>, synced: seq<(Key, nat)>)
      requires Valid() && Placed(s, recs, synced) && tick == s.tick
      modifies this`gcUpdated, this`active, this`readOnly, this`gcLink
      ensures Valid() && View() == PutEach(old(View()), NewEntries(s, clock, recs))
    {
      hide OffsetOf, FileOf, PutEach;
      ghost var es := NewEntries(s, clock, recs);
      var i := 0;
      assert es[..0] == [];
      PutNone(View());
      while i < |synced|
        invariant 0 <= i <= |synced|
        invariant Valid() && View() == PutEach(old(View()), es[..i])
      {
        PutNext(old(View()), es, i);
        GcPut(Entry(synced[i].0, synced[i].1, clock(tick + |synced| + i), false));
        i := i + 1;
      }
      assert es[..i] == es;
    }

    /** `GC::put`: into the map that the collector's table shares, and to what is handed over. */
    method GcPut(e: Entry)
      requires Valid()
      modifies this`gcUpdated, this`active, this`readOnly, this`gcLink
      ensures Valid() && View() == PutEach(old(View()), [e])
    {
      hide InsertSorted, InsertEach, FileOf;
      EachOne(e);
      match gcLink {
        case ToActive => active := active.(entries := InsertSorted(active.entries, e));
        case ToSealed(i) =>
          if i < |readOnly| {
            readOnly := readOnly[i := InsertSorted(readOnly[i], e)];
          }
        case ToTable(es) => gcLink := ToTable(InsertSorted(es, e));
      }
      gcUpdated := InsertSorted(gcUpdated, e);
    }

    // -------------------------------------------------------------------
    // Recovery

    /** Opening the store again after a crash, with the `n`-th saved head in the meta file. It succeeds if and
        only if the head was not punched away. The plain map is the one of before the crash; a key is lost
        only when the tables alone are not right about what the head leaves out. */
    method Recover(n: nat) returns (r: Result<()>)
      requires Valid() && n < |meta|
      modifies this, valLog
      ensures match Recovery.Recover(old(View()), capacity, n)
              case Err(e) => r == Err(e) && View() == old(View())
              case Ok(s) => r == Ok(()) && View() == s && Valid()
      ensures old(Good()) ==> (r.Ok? <==> old(hole) <= old(meta)[n].0)
      ensures contents == old(contents)
      ensures lost == if r.Ok? then old(lost) + iset k: Key | !Settled(old(View()), n, k) else old(lost)
      ensures old(Good()) && r.Ok? ==> Good()
    {
      hide Recovery.Recover, FileOf, AllRight, Settled, Inv, Size;
      ghost var s, before := View(), lost;
      if old(Good()) {
        GoodInv(s, clock, contents, lost);
        Runs.CrashReopens(s, capacity, clock, n);
      }
      r := Reopen(n);
      if r.Ok? {
        lost := lost + iset k: Key | !Settled(s, n, k);
        if old(Good()) {
          RecoverFields(s, capacity, n);
          SmallSame(s, View(), clock);
          StepAllRight(s, capacity, clock, contents, before, Runs.OpCrash(n), View(), lost);
        }
      }
    }

    /** Reads the log from the saved head on and rebuilds the memtables. */
    method Reopen(n: nat) returns (r: Result<()>)
      requires Valid() && n < |meta|
      modifies this`active, this`readOnly, this`gcUpdated, this`gcLink, this`meta, valLog`headOffset, valLog`tailOffset
      ensures match Recovery.Recover(old(View()), capacity, n)
              case Err(e) => r == Err(e) && View() == old(View())
              case Ok(s) => r == Ok(()) && View() == s && Valid()
    {
      hide ParseAll, FileOf, Replayed;
      var (head, tail) := meta[n];
      var entries := valLog.Recover(head);
      if entries.Err? {
        return Err(entries.error);
      }
      active, readOnly := RecoverMemtable(entries.value, head);
      gcUpdated, gcLink := [], ToActive;
      meta := [meta[n]];
      valLog.headOffset, valLog.tailOffset := head, tail;
      return Ok(());
    }

    method RecoverMemtable(entries: seq<Record>, headOffset: nat) returns (a: Memtable, sealed: seq<seq<Entry>>)
      ensures Rebuild(a, sealed) == Replayed(capacity, headOffset, entries)
      ensures exists runs :: Cut(runs, ReplayEntries(headOffset, entries), capacity) &&
                             Spread(Rebuild(a, sealed), runs)
    {
      hide InsertSorted, Size, Cut, Spread, ReplayEntries;
      a, sealed := EmptyTable, [];
      var mostRecentOffset := headOffset;
      var i := 0;
      assert entries[..0] == [];
      SizeNone();
      while i < |entries|
        invariant 0 <= i <= |entries|
        invariant Rebuild(a, sealed) == Replayed(capacity, headOffset, entries[..i])
        invariant mostRecentOffset == headOffset + Size(entries[..i]) && (i > 0 ==> mostRecentOffset > headOffset)
        invariant i == 0 ==> mostRecentOffset == headOffset
      {
        var e := entries[i];
        assert entries[..i + 1] == entries[..i] + [e];
        SizeAppend(entries[..i], e);
        assert entries[..i + 1][..i] == entries[..i];
        if mostRecentOffset != headOffset {
          if Full(a, capacity, |e.key|) {
            sealed := sealed + [a.entries];
            a := EmptyTable;
          }
          a := Inserted(a, Entry(e.key, mostRecentOffset, e.time, e.tomb));
        }
        mostRecentOffset := mostRecentOffset + 4 + 4 + 8 + 1 + |e.key| + |e.value|;
        i := i + 1;
      }
      assert entries[..i] == entries;
      var runs := ReplayIsCut(capacity, headOffset, entries);
    }
  }

  lemma GoodInv(s: State, clock: nat -> nat, m: map<Key, Value>, lost: iset<Key>)
    requires AllRight(s, clock, m, lost)
    ensures Inv(s, clock) && StoreSteps.Small(s, clock(s.tick))
  {
  }

  lemma RecoverFields(s: State, capacity: nat, n: nat)
    requires n < |s.saved| && Recovery.Recover(s, capacity, n).Ok?
    ensures var s' := Recovery.Recover(s, capacity, n).value; s'.log == s.log && s'.tick == s.tick
  {
    hide ParseAll, Replayed, File;
  }

  lemma SmallSame(s: State, s': State, clock: nat -> nat)
    requires s'.log == s.log && s'.tick == s.tick
    ensures StoreSteps.Small(s, clock(s.tick)) ==> StoreSteps.Small(s', clock(s'.tick))
  {
  }

  lemma {:induction false} JudgeFails(s: State, rs: seq<Record>, n: nat)
    requires n <= |rs| && JudgeAll(s, rs[..n]).Err?
    ensures JudgeAll(s, rs) == JudgeAll(s, rs[..n])
    decreases |rs|
  {
    hide Judge;
    if n == |rs| {
      assert rs[..n] == rs;
    } else {
      var init := rs[..|rs| - 1];
      assert init[..n] == rs[..n];
      JudgeFails(s, init, n);
    }
  }

  /** The keys of the appended records with the offsets they start at. */
  ghost predicate Placed(s: State, recs: seq<Record>, synced: seq<(Key, nat)>)
  {
    |synced| == |recs| &&
    forall j | 0 <= j < |recs| :: synced[j] == (recs[j].key, OffsetOf(s.log + recs, |s.log| + j))
  }

  lemma LogStep(log: seq<Record>, recs: seq<Record>, j: nat)
    requires j < |recs|
    ensures OffsetOf(log + recs, |log| + j) == Size(log + recs[..j])
    ensures log + recs[..j + 1] == log + recs[..j] + [recs[j]]
    ensures j == 0 ==> log + recs[..j] == log
  {
    hide Size;
    PrefixOf(log, recs, j);
    MoreRecords(log, recs, j);
  }

  lemma MoreRecords(log: seq<Record>, recs: seq<Record>, j: nat)
    requires j < |recs|
    ensures log + recs[..j + 1] == log + recs[..j] + [recs[j]]
    ensures j == 0 ==> log + recs[..j] == log
  {
  }

  lemma PrefixOf(log: seq<Record>, recs: seq<Record>, j: nat)
    requires j <= |recs|
    ensures (log + recs)[..|log| + j] == log + recs[..j]
  {
  }

  lemma AppendedFirst(s: State, clock: nat -> nat, n: nat, vs: seq<(Key, Value)>)
    ensures Appended(s, clock, n, vs)[0] == Record(TAIL_KEY, ToLe(s.tail + n, 8), clock(s.tick), false)
  {
    hide ToLe;
  }

  lemma AppendedNext(s: State, clock: nat -> nat, n: nat, vs: seq<(Key, Value)>, i: nat)
    requires i < |vs|
    ensures Appended(s, clock, n, vs)[i + 1] == Record(vs[i].0, vs[i].1, clock(s.tick + 1 + i), false)
  {
    hide ToLe;
  }

  lemma EachOne(e: Entry)
    ensures forall t :: InsertEach(t, [e]) == InsertSorted(t, e)
  {
    hide InsertSorted;
    assert [e][..0] == [];
  }

  lemma FlushFields(s: State, i: nat)
    requires i < |s.sealed|
    ensures Store.Flush(s, i).log == s.log && Store.Flush(s, i).tick == s.tick
  {
    hide SsTable.Fits, SsTable.StoredAll;
  }

  lemma PutCommutes(s: State, es: seq<Entry>, pending: nat, tick: nat)
    ensures PutEach(s.(pending := pending, tick := tick), es) == PutEach(s, es).(pending := pending, tick := tick)
    ensures PutEach(s, es).tail == s.tail && PutEach(s, es).tick == s.tick
  {
    hide InsertEach;
  }

  lemma PutNone(s: State)
    ensures PutEach(s, []) == s
  {
    if s.link.ToSealed? && s.link.index < |s.sealed| {
      assert s.sealed[s.link.index := s.sealed[s.link.index]] == s.sealed;
    }
  }

  lemma PutNext(s: State, es: seq<Entry>, i: nat)
    requires i < |es|
    ensures PutEach(PutEach(s, es[..i]), [es[i]]) == PutEach(s, es[..i + 1])
  {
    hide InsertSorted;
    EachOne(es[i]);
    assert es[..i + 1][..i] == es[..i];
    if s.link.ToSealed? && s.link.index < |s.sealed| {
      var n := s.link.index;
      var t := InsertEach(s.sealed[n], es[..i]);
      assert s.sealed[n := t][n := InsertSorted(t, es[i])] == s.sealed[n := InsertSorted(t, es[i])];
    }
  }

  lemma SizeNone()
    ensures Size([]) == 0
  {
  }

  lemma FirstFile(time: nat)
    ensures var log := FirstLog(time);
            SerializeAll(log) == Serialize(log[0]) + Serialize(log[1]) &&
            OffsetOf(log, 1) == |Serialize(log[0])|
  {
    hide Serialize;
    var log := FirstLog(time);
    assert log[..1] == [log[0]] && log[..1][..0] == [];
    assert SerializeAll(log[..1]) == SerializeAll([]) + Serialize(log[0]);
    assert SerializeAll(log) == SerializeAll(log[..1]) + Serialize(log[1]);
  }

  lemma FirstView(clock: nat -> nat)
    ensures File(NewStore(clock)) == SerializeAll(FirstLog(clock(0))) && NewStore(clock).hole == 0
  {
    hide SerializeAll, InsertSorted;
    assert SerializeAll(FirstLog(clock(0)))[0..] == SerializeAll(FirstLog(clock(0)));
  }
}
