/** The store as a state: the value log, the active and the sealed memtables, the SSTables, and what the
    garbage collector has rewritten but not yet handed over. Its reads, its writes and its flushes.
 */
module Store {
  import opened Wrappers
  import opened Bytes
  import opened Entries
  import opened LogCodec
  import opened Merge
  import opened Memtables
  import SsTable

  const HEAD_KEY: Key := [104, 101, 97, 100]
  const TAIL_KEY: Key := [116, 97, 105, 108]
  const HEAD_KEY_SIZE: nat := 4

  /** The value that deletes a key. */
  const MARKER: Value := [42]

  const MAX_KEY_SIZE: nat := 65536
  const MAX_VALUE_SIZE: nat := 0x1_0000_0000

  predicate UserKey(k: Key) { k != [104, 101, 97, 100] && k != [116, 97, 105, 108] }

  /** Whose map of entries the collector's own table shares: that of the active memtable the store was
      opened with, of the sealed memtable it became, or of the SSTable that was flushed from it. The flush
      empties the map; what an SSTable's map then holds is what the collector has put into it since. */
  datatype Link = ToActive | ToSealed(index: nat) | ToTable(entries: seq<Entry>)

  /** `hole` bytes at the front of the log file are deallocated; `tail` is where the collector reads
      next; `gc` are its rewritten entries, and `pending` the bytes to punch once they are handed
      over; `link` is where it searches first. `saved` are the (head, tail) pairs handed to the meta
      file, oldest first. */
  datatype State = State(
    log: seq<Record>, hole: nat, tail: nat,
    active: Memtable, sealed: seq<seq<Entry>>, tables: seq<seq<Entry>>,
    gc: seq<Entry>, pending: nat, link: Link, saved: seq<(nat, nat)>, tick: nat)

  /** The collector's own table. */
  function OwnTable(s: State): (t: seq<Entry>)
  {
    match s.link
    case ToActive => s.active.entries
    case ToSealed(i) => if i < |s.sealed| then s.sealed[i] else []
    case ToTable(es) => es
  }

  /** What only the collector's table holds. */
  function Held(s: State): (t: seq<Entry>) { if s.link.ToTable? then s.link.entries else [] }

  /** The bytes of the value log file. */
  function FileOf(log: seq<Record>, hole: nat): (f: seq<Byte>)
  {
    var bytes := SerializeAll(log);
    if hole <= |bytes| then Zeros(hole) + bytes[hole..] else Zeros(|bytes|)
  }

  function File(s: State): (f: seq<Byte>) { FileOf(s.log, s.hole) }

  // ---------------------------------------------------------------------
  // Reading

  /** The keys and the values that the store accepts. */
  predicate Sized(k: Key) { 1 <= |k| <= 65536 }

  predicate ValueSized(v: Value) { 1 <= |v| <= 0x1_0000_0000 }

  function Validate(k: Key, v: Option<Value>): (r: Result<()>)
  {
    if k == [] then Err(KeySizeNone)
    else if |k| > MAX_KEY_SIZE then Err(KeyMaxSizeExceeded)
    else if v.Some? && v.value == [] then Err(ValueSizeNone)
    else if v.Some? && |v.value| > MAX_VALUE_SIZE then Err(ValMaxSizeExceeded)
    else Ok(())
  }

  /** The search order of a read: the active memtable, then the newest sealed version, then the newest
      version of the SSTables. */
  function Tiered(s: State, k: Key): (r: Option<Entry>)
  {
    var a := Find(s.active.entries, k);
    if a.Some? then a else
    var m := Newest(s.sealed, k);
    if m.Some? then m else Newest(s.tables, k)
  }

  /** The entry a read uses. */
  function Select(s: State, k: Key): (r: Option<Entry>)
  {
    var g := Find(s.gc, k);
    if g.Some? then g else Tiered(s, k)
  }

  /** The value an entry stands for. */
  function ReadEntry(s: State, x: Option<Entry>): (r: Result<Option<Value>>)
  {
    if x.None? || x.value.tomb then Ok(None) else
    match GetValue(File(s), x.value.offset)
    case Err(e) => Err(e)
    case Ok(None) => Ok(None)
    case Ok(Some((v, tomb))) => if tomb then Ok(None) else Ok(Some(v))
  }

  /** `DataStore::get` */
  function Get(s: State, k: Key): (r: Result<Option<Value>>)
  {
    match Validate(k, None)
    case Err(e) => Err(e)
    case Ok(_) =>
      var g := ReadEntry(s, Find(s.gc, k));
      if g.Err? || g.value.Some? then g else ReadEntry(s, Tiered(s, k))
  }

  // ---------------------------------------------------------------------
  // Writing

  /** `migrate_memtable_to_read_only`: the store gets a new memtable, the collector keeps the one it has. */
  function Seal(s: State, clock: nat -> nat): (s': State)
  {
    var head := s.active.recent;
    var full := Inserted(s.active, Entry(HEAD_KEY, head, clock(s.tick), false));
    s.(saved := s.saved + [(head, s.tail)], sealed := s.sealed + [full.entries], active := EmptyTable,
       link := LinkSealed(s), tick := s.tick + 1)
  }

  function LinkSealed(s: State): (l: Link) { if s.link.ToActive? then ToSealed(|s.sealed|) else s.link }

  function InsertAll(m: Memtable, es: seq<Entry>): (m': Memtable)
  {
    if es == [] then m else Inserted(InsertAll(m, es[..|es| - 1]), es[|es| - 1])
  }

  /** `sync_gc_update_with_store`: the rewritten entries go to the active memtable and the collected
      bytes are punched. */
  function Sync(s: State): (s': State)
  {
    s.(active := InsertAll(s.active, s.gc), gc := [], hole := s.tail + s.pending, tail := s.tail + s.pending)
  }

  function Synced(s: State): (s': State) { if s.gc == [] then s else Sync(s) }

  /** The write itself: append, seal if full, insert. */
  function Write(s: State, capacity: nat, clock: nat -> nat, k: Key, v: Value): (s': State)
  {
    var time, tomb, offset := clock(s.tick), v == MARKER, Size(s.log);
    var s1 := s.(log := s.log + [Record(k, v, time, tomb)], tick := s.tick + 1);
    var s2 := if Full(s1.active, capacity, HEAD_KEY_SIZE) then Seal(s1, clock) else s1;
    s2.(active := Inserted(s2.active, Entry(k, offset, time, tomb)))
  }

  /** `DataStore::put`; `delete` is a put of the marker, `update` is a put. */
  function Put(s: State, capacity: nat, clock: nat -> nat, k: Key, v: Value): (s': State)
  {
    if Validate(k, Some(v)).Err? then s else Write(Synced(s), capacity, clock, k, v)
  }

  /** A flush that completes: the sealed entries become an SSTable, and the map they are shared
      through is emptied. Entries that do not fit a block, or an empty memtable, make it fail. */
  function Flush(s: State, i: nat): (s': State)
    requires i < |s.sealed|
  {
    if s.sealed[i] == [] || !SsTable.Fits(s.sealed[i]) then s
    else s.(tables := s.tables + [SsTable.StoredAll(s.sealed[i])], sealed := s.sealed[i := []],
            link := if s.link == ToSealed(i) then ToTable([]) else s.link)
  }

  /** The flushed memtable leaves the sealed set. */
  function DropSealed(s: State, i: nat): (s': State)
    requires i < |s.sealed|
  {
    if s.sealed[i] == [] then s.(sealed := s.sealed[..i] + s.sealed[i + 1..], link := LinkWithout(s.link, i)) else s
  }

  function LinkWithout(l: Link, i: nat): (l': Link)
  {
    if l.ToSealed? && l.index == i then ToTable([])
    else if l.ToSealed? && l.index > i then ToSealed(l.index - 1)
    else l
  }

  // ---------------------------------------------------------------------
  // What the log says

  /** The last record of a key. */
  function Last(log: seq<Record>, k: Key): (r: Option<nat>)
    ensures r.Some? ==> r.value < |log| && log[r.value].key == k
    ensures r.None? ==> forall i | 0 <= i < |log| :: log[i].key != k
    ensures r.Some? ==> forall i | r.value < i < |log| :: log[i].key != k
  {
    if log == [] then None
    else if log[|log| - 1].key == k then Some(|log| - 1)
    else Last(log[..|log| - 1], k)
  }

  /** The value of a key according to the log. */
  function Current(log: seq<Record>, k: Key): (v: Option<Value>)
  {
    match Last(log, k)
    case None => None
    case Some(i) => if log[i].tomb then None else Some(log[i].value)
  }

  lemma LastUnique(log: seq<Record>, k: Key, i: nat)
    requires i < |log| && log[i].key == k && forall j | i < j < |log| :: log[j].key != k
    ensures Last(log, k) == Some(i)
  {
  }

  lemma LastAppend(log: seq<Record>, r: Record, k: Key)
    ensures Last(log + [r], k) == if r.key == k then Some(|log|) else Last(log, k)
  {
    assert (log + [r])[..|log|] == log;
  }

  // ---------------------------------------------------------------------
  // Versions

  /** The entry stands for a record of the log: same place, key and marker, and a time not before the
      record's and before every later record of the key. */
  ghost predicate Backed(log: seq<Record>, e: Entry, i: nat)
  {
    i < |log| && OffsetOf(log, i) == e.offset && log[i].key == e.key && log[i].tomb == e.tomb &&
    0 < log[i].time <= e.time &&
    forall j | i < j < |log| && log[j].key == e.key :: e.time < log[j].time
  }

  ghost predicate VersionOk(log: seq<Record>, e: Entry)
  {
    exists i :: Backed(log, e, i)
  }

  lemma BackedOrder(log: seq<Record>, x: Entry, i: nat, y: Entry, j: nat)
    requires Backed(log, x, i) && Backed(log, y, j) && x.key == y.key
    ensures i < j ==> x.offset < y.offset && x.time < y.time
    ensures i == j ==> x.offset == y.offset && x.tomb == y.tomb
  {
    hide Size;
    if i < j {
      OffsetMonotone(log, i, j);
    }
  }

  /** Offsets order the versions of a key as times do. */
  lemma VersionOrder(log: seq<Record>, x: Entry, y: Entry)
    requires VersionOk(log, x) && VersionOk(log, y) && x.key == y.key
    ensures x.time <= y.time ==> x.offset <= y.offset
    ensures x.offset == y.offset ==> x.tomb == y.tomb
  {
    hide Backed;
    var i :| Backed(log, x, i);
    var j :| Backed(log, y, j);
    BackedOrder(log, x, i, y, j);
    BackedOrder(log, y, j, x, i);
  }

  /** No version lies behind the last record of its key. */
  lemma VersionAtMostLast(log: seq<Record>, e: Entry)
    requires VersionOk(log, e)
    ensures Last(log, e.key).Some? && e.offset <= OffsetOf(log, Last(log, e.key).value)
    ensures e.offset == OffsetOf(log, Last(log, e.key).value) ==> Backed(log, e, Last(log, e.key).value)
  {
    hide Size;
    var i :| Backed(log, e, i);
    var l := Last(log, e.key).value;
    OffsetMonotone(log, i, l);
    if e.offset == OffsetOf(log, l) {
      OffsetInjective(log, i, l);
    }
  }

  lemma VersionAppend(log: seq<Record>, more: seq<Record>, e: Entry)
    requires VersionOk(log, e)
    requires forall i | 0 <= i < |more| && more[i].key == e.key :: e.time < more[i].time
    ensures VersionOk(log + more, e)
  {
    hide Size;
    var i :| Backed(log, e, i);
    OffsetStable(log, more, i);
    assert Backed(log + more, e, i);
  }

  /** Every version of `k` in the tables is at or before `offset`. */
  ghost predicate AtMost(tables: seq<seq<Entry>>, k: Key, offset: nat)
  {
    forall e: Entry | e.key == k && Version(tables, e) :: e.offset <= offset
  }

  ghost predicate AllOk(log: seq<Record>, now: nat, tables: seq<seq<Entry>>, k: Key)
  {
    forall e: Entry | e.key == k && Version(tables, e) :: VersionOk(log, e) && e.time < now
  }

  /** A newest-wins search over versions that stand for records finds the one written last. */
  lemma NewestIsLast(log: seq<Record>, now: nat, tables: seq<seq<Entry>>, k: Key)
    requires AllOk(log, now, tables, k)
    ensures Newest(tables, k).Some? ==>
              Version(tables, Newest(tables, k).value) && AtMost(tables, k, Newest(tables, k).value.offset)
    ensures Newest(tables, k).None? ==> forall e: Entry | e.key == k :: !Version(tables, e)
  {
    hide VersionOk, Find, Newest;
    NewestIsLatest(tables, k);
    var r := Newest(tables, k);
    forall e: Entry | e.key == k && Version(tables, e)
      ensures r.Some? && e.offset <= r.value.offset
    {
      VersionPositive(log, e);
      var i :| 0 <= i < |tables| && Find(tables[i], e.key) == Some(e);
      NewestKey(tables, k);
      VersionOrder(log, e, r.value);
    }
  }

  lemma NewestKey(tables: seq<seq<Entry>>, k: Key)
    ensures Newest(tables, k).Some? ==> Newest(tables, k).value.key == k
  {
  }

  lemma VersionPositive(log: seq<Record>, e: Entry)
    requires VersionOk(log, e)
    ensures e.time > 0
  {
  }

  // ---------------------------------------------------------------------
  // The invariant of one key

  /** Records of the key carry positive, strictly increasing times, and delete it exactly when their value
      is the marker. */
  ghost predicate LogTimed(log: seq<Record>, now: nat, k: Key)
  {
    (forall i | 0 <= i < |log| && log[i].key == k ::
       0 < log[i].time < now && (log[i].tomb <==> log[i].value == MARKER)) &&
    (forall i, j | 0 <= i < j < |log| && log[i].key == k && log[j].key == k :: log[i].time < log[j].time)
  }

  ghost predicate EntryOk(log: seq<Record>, now: nat, x: Option<Entry>)
  {
    x.Some? ==> VersionOk(log, x.value) && x.value.time < now
  }

  /** Every version of the key stands for a record. */
  ghost predicate Sound(s: State, now: nat, k: Key)
  {
    EntryOk(s.log, now, Find(s.gc, k)) && EntryOk(s.log, now, Find(s.active.entries, k)) &&
    AllOk(s.log, now, s.sealed, k) && AllOk(s.log, now, s.tables, k) && EntryOk(s.log, now, Find(Held(s), k))
  }

  /** The version a read finds before it comes to the sealed memtables. */
  function Topmost(s: State, k: Key): (r: Option<Entry>)
  {
    if Find(s.gc, k).Some? then Find(s.gc, k) else Find(s.active.entries, k)
  }

  /** No version of `k` in the tables, or in what a merge may add to them, lies behind `offset`. */
  ghost predicate TablesAtMost(s: State, k: Key, offset: nat)
  {
    AtMost(s.tables, k, offset) && (Find(Held(s), k).Some? ==> Find(Held(s), k).value.offset <= offset)
  }

  /** The tier a read stops at holds nothing older than the tiers searched after it. */
  ghost predicate Layered(s: State, k: Key)
  {
    var a, m := Topmost(s, k), Newest(s.sealed, k);
    (a.Some? ==> AtMost(s.sealed, k, a.value.offset) && TablesAtMost(s, k, a.value.offset)) &&
    (a.None? && m.Some? ==> TablesAtMost(s, k, m.value.offset))
  }

  /** The entry is right about the key: one for the last record if that is live, no live one otherwise. */
  ghost predicate Answers(log: seq<Record>, x: Option<Entry>, k: Key)
  {
    var l := Last(log, k);
    if l.Some? && !log[l.value].tomb then x.Some? && x.value.offset == OffsetOf(log, l.value)
    else !Live(x)
  }

  /** A read uses an entry that is right about the key. */
  ghost predicate UpToDate(s: State, k: Key)
  {
    Answers(s.log, Select(s, k), k)
  }

  /** The last record of a live key is not in the hole, nor in what is about to be punched. */
  ghost predicate Unpunched(s: State, k: Key)
  {
    var l := Last(s.log, k);
    l.Some? && !s.log[l.value].tomb ==>
      s.hole <= OffsetOf(s.log, l.value) && (s.gc != [] ==> s.tail + s.pending <= OffsetOf(s.log, l.value))
  }

  /** The state without its active memtable. */
  function Bare(s: State): (s': State) { s.(gc := [], active := EmptyTable) }

  /** The key does without the log up to record `h`: its last record lies after it, or the sealed memtables
      and the tables are right about it. */
  ghost predicate CoveredAt(s: State, k: Key, h: nat)
  {
    h < |s.log| &&
    (Last(s.log, k).Some? && Last(s.log, k).value <= h ==> Layered(Bare(s), k) && UpToDate(Bare(s), k))
  }

  ghost predicate HeadCovered(s: State, k: Key, head: nat)
  {
    exists h: nat :: h < |s.log| && OffsetOf(s.log, h) == head && CoveredAt(s, k, h)
  }

  ghost predicate Covered(s: State, k: Key)
  {
    forall n | 0 <= n < |s.saved| :: HeadCovered(s, k, s.saved[n].0)
  }

  ghost predicate KeyInv(s: State, now: nat, k: Key)
  {
    LogTimed(s.log, now, k) && Sound(s, now, k) && Layered(s, k) && UpToDate(s, k) &&
    Unpunched(s, k) && Covered(s, k)
  }

  // ---------------------------------------------------------------------
  // The invariant of the whole state

  ghost predicate Boundary(log: seq<Record>, offset: nat)
  {
    exists h: nat :: h <= |log| && OffsetOf(log, h) == offset
  }

  ghost predicate RecordAt(log: seq<Record>, offset: nat)
  {
    exists h: nat :: h < |log| && OffsetOf(log, h) == offset
  }

  predicate TiersOk(s: State)
  {
    Sorted(s.gc) && Sorted(s.active.entries) && AllSorted(s.sealed) && AllSorted(s.tables) && Sorted(Held(s)) &&
    (s.link.ToSealed? ==> s.link.index < |s.sealed|)
  }

  ghost predicate Inv(s: State, clock: nat -> nat)
  {
    AllWellFormed(s.log) && TiersOk(s) &&
    Boundary(s.log, s.hole) && Boundary(s.log, s.tail) && s.tail <= s.hole &&
    (s.gc != [] ==> s.tail == s.hole && Boundary(s.log, s.tail + s.pending)) &&
    RecordAt(s.log, s.active.recent) &&
    (forall g | g in s.gc :: !g.tomb && RecordAt(s.log, g.offset)) &&
    (forall n | 0 <= n < |s.saved| ::
       RecordAt(s.log, s.saved[n].0) && Boundary(s.log, s.saved[n].1) && s.saved[n].1 <= s.hole)
  }

  /** Clock readings are positive and strictly increase. */
  ghost predicate Ticking(clock: nat -> nat)
  {
    (forall i: nat :: clock(i) > 0) && (forall i: nat, j: nat | i < j :: clock(i) < clock(j))
  }

  lemma FileHolds(s: State, clock: nat -> nat)
    requires Inv(s, clock)
    ensures Holds(File(s), s.log, s.hole)
  {
    hide SerializeAll, Size;
    var h: nat :| h <= |s.log| && OffsetOf(s.log, h) == s.hole;
    OffsetMonotone(s.log, h, |s.log|);
    OffsetEnd(s.log);
    assert File(s)[s.hole..] == SerializeAll(s.log)[s.hole..];
  }

  /** A state that satisfies the invariant answers every key as its log does, and reads no byte of the
      hole to do so. */
  lemma GetIsCurrent(s: State, clock: nat -> nat, now: nat, k: Key)
    requires Inv(s, clock) && KeyInv(s, now, k) && Sized(k)
    ensures Get(s, k) == Ok(Current(s.log, k))
    ensures Select(s, k).Some? && !Select(s, k).value.tomb ==> s.hole <= Select(s, k).value.offset
  {
    hide Sound, Get, Select, UpToDate, Unpunched, Inv, Current;
    GetAnswers(s, clock, s.tables, now, k);
    assert s.(tables := s.tables) == s;
  }

  /** So does one with other tables, if what it finds is right about the key. */
  lemma GetAnswers(s: State, clock: nat -> nat, ts: seq<seq<Entry>>, now: nat, k: Key)
    requires Inv(s, clock) && Unpunched(s, k) && Sized(k)
    requires var s' := s.(tables := ts); Sound(s', now, k) && UpToDate(s', k)
    ensures var s' := s.(tables := ts);
            Get(s', k) == Ok(Current(s.log, k)) &&
            (Select(s', k).Some? && !Select(s', k).value.tomb ==> s.hole <= Select(s', k).value.offset)
  {
    hide Size, GetValue, Newest, Find, VersionOk, File, OffsetOf;
    var s' := s.(tables := ts);
    var x := Select(s', k);
    SelectOk(s', now, k);
    assert File(s') == File(s) by { SameFile(s, s'); }
    if Live(x) {
      var l := Last(s.log, k).value;
      FileHolds(s, clock);
      HoldsRead(File(s), s.log, s.hole, l);
      assert ReadEntry(s', x) == Ok(Some(s.log[l].value));
    } else {
      NotLiveLast(s.log, x, k);
    }
    if Find(s.gc, k).Some? {
      FindMember(s.gc, k);
    }
  }

  lemma SameFile(s: State, s': State)
    requires s'.log == s.log && s'.hole == s.hole
    ensures File(s') == File(s)
  {
  }

  /** A live version is read at its record, unless that is in the hole. */
  lemma LiveRead(s: State, clock: nat -> nat, e: Entry, i: nat)
    requires Inv(s, clock) && Backed(s.log, e, i) && !e.tomb
    ensures GetValue(File(s), e.offset)
         == if s.hole <= e.offset then Ok(Some((s.log[i].value, false))) else Err(UnexpectedEof)
  {
    hide File, OffsetOf, Inv, GetValue, Last;
    ReadAt(s, clock, i);
  }

  /** A read at a record gives that record, unless it is in the hole. */
  lemma ReadAt(s: State, clock: nat -> nat, i: nat)
    requires Inv(s, clock) && i < |s.log|
    ensures GetValue(File(s), OffsetOf(s.log, i))
         == if s.hole <= OffsetOf(s.log, i) then Ok(Some((s.log[i].value, s.log[i].tomb))) else Err(UnexpectedEof)
  {
    hide File, OffsetOf, Sorted, ReadRecord, Size, RecordAt, Last;
    FileHolds(s, clock);
    if s.hole <= OffsetOf(s.log, i) {
      HoldsRead(File(s), s.log, s.hole, i);
    } else {
      var h: nat :| h <= |s.log| && OffsetOf(s.log, h) == s.hole;
      if h <= i {
        OffsetMonotone(s.log, h, i);
      }
      HoleRead(File(s), s.log, s.hole, i, h);
    }
  }

  /** An entry that is right about the key and not live: the log has no live record last. */
  lemma NotLiveLast(log: seq<Record>, x: Option<Entry>, k: Key)
    requires Answers(log, x, k) && !Live(x) && (x.Some? ==> VersionOk(log, x.value) && x.value.key == k)
    ensures Last(log, k).Some? ==> log[Last(log, k).value].tomb
  {
    hide OffsetOf;
    if x.Some? {
      VersionAtMostLast(log, x.value);
    }
  }

  lemma BackedTomb(log: seq<Record>, e: Entry, i: nat)
    requires Backed(log, e, i)
    ensures i < |log| && log[i].tomb == e.tomb && log[i].key == e.key
  {
  }

  lemma FindMember(es: seq<Entry>, k: Key)
    ensures Find(es, k).Some? ==> Find(es, k).value in es && Find(es, k).value.key == k
  {
  }

  lemma SelectOk(s: State, now: nat, k: Key)
    requires Sound(s, now, k)
    ensures EntryOk(s.log, now, Select(s, k))
    ensures Select(s, k).Some? ==> Select(s, k).value.key == k
  {
    hide Newest, Find, VersionOk;
    NewestIsLast(s.log, now, s.sealed, k);
    NewestIsLast(s.log, now, s.tables, k);
    NewestKey(s.sealed, k);
    NewestKey(s.tables, k);
    FindMember(s.gc, k);
    FindMember(s.active.entries, k);
  }
}
