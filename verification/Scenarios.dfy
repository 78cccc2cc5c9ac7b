/** Runs of the store in which nothing fails and yet something is lost: a key by two collections, an update by
    a collection after a seal, a put by a crash between a seal and its flush, and all further collection by a
    crash after a punch.
 */
module Scenarios {
  import opened Wrappers
  import opened Bytes
  import opened Entries
  import opened LogCodec
  import opened Merge
  import opened Memtables
  import opened Store
  import opened StoreSteps
  import opened Recovery
  import opened Collector
  import opened Runs

  const A: Key := [97]
  const B: Key := [98]

  // ---------------------------------------------------------------------
  // Single steps

  /** The parts of the state that the steps of this run leave alone. */
  predicate SamePlaces(s: State, s': State)
  {
    s'.hole == s.hole && s'.tail == s.tail && s'.sealed == s.sealed && s'.tables == s.tables && s'.saved == s.saved &&
    s'.link == s.link
  }

  /** A put into a memtable with room and nothing to hand over. */
  lemma PutOne(s: State, capacity: nat, clock: nat -> nat, k: Key, v: Value)
    requires Sized(k) && ValueSized(v) && s.gc == [] && s.active.size + 17 < capacity && Sorted(s.active.entries)
    ensures var s' := Put(s, capacity, clock, k, v);
            s'.log == s.log + [Record(k, v, clock(s.tick), v == MARKER)] && s'.tick == s.tick + 1 && s'.gc == [] &&
            SamePlaces(s, s') && s'.active.size == s.active.size + |k| + 13 && Sorted(s'.active.entries)
  {
    hide InsertSorted, Size;
    InsertKeepsSorted(s.active.entries, Entry(k, Size(s.log), clock(s.tick), v == MARKER));
  }

  lemma PutFinds(s: State, capacity: nat, clock: nat -> nat, k: Key, v: Value, q: Key)
    requires Sized(k) && ValueSized(v) && s.gc == [] && s.active.size + 17 < capacity && Sorted(s.active.entries)
    ensures var s' := Put(s, capacity, clock, k, v);
            |s.log| <= |s'.log| &&
            Find(s'.active.entries, q) == if q != k then Find(s.active.entries, q)
                                          else Some(Entry(k, OffsetOf(s'.log, |s.log|), clock(s.tick), v == MARKER))
  {
    hide InsertSorted, Size, Find;
    var r := Record(k, v, clock(s.tick), v == MARKER);
    InsertFinds(s.active.entries, Entry(k, Size(s.log), clock(s.tick), v == MARKER), q);
    OffsetStable(s.log, [r], |s.log|);
    OffsetEnd(s.log);
  }

  /** A put first hands over what the collector has rewritten. */
  lemma PutSyncs(s: State, capacity: nat, clock: nat -> nat, k: Key, v: Value)
    requires s.gc != [] && Sized(k) && ValueSized(v)
    ensures Put(s, capacity, clock, k, v) == Put(Sync(s), capacity, clock, k, v)
  {
    hide Write;
  }

  /** How a record is judged by the entry that the collector's table has for its key. */
  lemma JudgeFound(s: State, clock: nat -> nat, r: Record, e: Entry, i: nat)
    requires Inv(s, clock) && i < |s.log| && Find(OwnTable(s), r.key) == Some(e) && !e.tomb
    requires e.offset == OffsetOf(s.log, i) && s.hole <= OffsetOf(s.log, i) && !s.log[i].tomb
    ensures Judge(s, r) == Ok(if r.time < e.time || s.log[i].value == MARKER then None else Some(s.log[i].value))
    ensures CurrentValue(s, r.key) == Ok(Some((s.log[i].value, e.time)))
  {
    hide File, OffsetOf, GetValue, OwnTable, Inv, Find;
    FileHolds(s, clock);
    WellFormedLog(s, clock);
    HoldsRead(File(s), s.log, s.hole, i);
  }

  lemma WellFormedLog(s: State, clock: nat -> nat)
    requires Inv(s, clock)
    ensures AllWellFormed(s.log)
  {
  }

  lemma JudgeStep(s: State, rs: seq<Record>, n: nat, vs: seq<(Key, Value)>, x: Option<Value>)
    requires n < |rs| && JudgeAll(s, rs[..n]) == Ok(vs) && Judge(s, rs[n]) == Ok(x)
    ensures JudgeAll(s, rs[..n + 1]) == Ok(if x.Some? then vs + [(rs[n].key, x.value)] else vs)
  {
    hide Judge;
    assert rs[..n + 1][..n] == rs[..n];
  }

  /** A collection that asks for more than the log reads it from the tail to its end. */
  lemma PlanAll(s: State, clock: nat -> nat, c: nat, vs: seq<(Key, Value)>)
    requires Inv(s, clock) && s.gc == [] && c <= |s.log| && OffsetOf(s.log, c) == s.tail == s.hole
    requires JudgeAll(s, s.log[c..]) == Ok(vs) && |vs| < |s.log| - c
    ensures s.tail < Size(s.log)
    ensures PlanFor(s, Size(s.log) + 1) == Some(Plan(Size(s.log) - s.tail, s.log[c..], vs))
  {
    hide File, OffsetOf, ParseChunk, JudgeAll, Inv, Size;
    FileHolds(s, clock);
    WellFormedLog(s, clock);
    var d := ChunkFrom(File(s), s.log, s.hole, c, Size(s.log) + 1, 0);
    OffsetMonotone(s.log, d, |s.log|);
    OffsetMonotone(s.log, c, |s.log|);
    OffsetEnd(s.log);
    assert s.log[c..d] == s.log[c..];
  }

  /** A live entry for a record in the hole cannot be read. */
  lemma ReadInHole(s: State, clock: nat -> nat, k: Key, e: Entry, i: nat)
    requires Inv(s, clock) && s.gc == [] && Sized(k) && Find(s.active.entries, k) == Some(e) && !e.tomb
    requires i < |s.log| && e.offset == OffsetOf(s.log, i) < s.hole
    ensures Get(s, k) == Err(UnexpectedEof)
  {
    hide File, OffsetOf, ReadRecord, AllWellFormed, Sorted;
    FindNone(k);
    FileHolds(s, clock);
    var d: nat :| d <= |s.log| && OffsetOf(s.log, d) == s.hole;
    if d <= i {
      OffsetMonotone(s.log, d, i);
    }
    HoleRead(File(s), s.log, s.hole, i, d);
  }

  // ---------------------------------------------------------------------
  // Three puts

  function Three(capacity: nat, clock: nat -> nat): (s: State)
  {
    Put(Put(Put(NewStore(clock), capacity, clock, A, [1]), capacity, clock, B, [1]), capacity, clock, B, [2])
  }

  function FirstFive(clock: nat -> nat): (log: seq<Record>)
  {
    [Record(TAIL_KEY, TAIL_KEY, clock(0), false), Record(HEAD_KEY, HEAD_KEY, clock(0), false),
     Record(A, [1], clock(1), false), Record(B, [1], clock(2), false), Record(B, [2], clock(3), false)]
  }

  /** The active memtable has record `i` for its key, with the given time. */
  predicate Points(s: State, i: nat, time: nat)
  {
    i < |s.log| && Find(s.active.entries, s.log[i].key) == Some(Entry(s.log[i].key, OffsetOf(s.log, i), time, false))
  }

  lemma PointsKept(s: State, capacity: nat, clock: nat -> nat, k: Key, v: Value, i: nat, time: nat)
    requires Sized(k) && ValueSized(v) && s.gc == [] && s.active.size + 17 < capacity && Sorted(s.active.entries)
    requires Points(s, i, time) && s.log[i].key != k
    ensures Points(Put(s, capacity, clock, k, v), i, time)
  {
    hide OffsetOf, Find, Put;
    PutOne(s, capacity, clock, k, v);
    PutFinds(s, capacity, clock, k, v, s.log[i].key);
    OffsetStable(s.log, [Record(k, v, clock(s.tick), v == MARKER)], i);
  }

  lemma PointsNew(s: State, capacity: nat, clock: nat -> nat, k: Key, v: Value)
    requires Sized(k) && ValueSized(v) && s.gc == [] && s.active.size + 17 < capacity && Sorted(s.active.entries)
    requires v != MARKER
    ensures Points(Put(s, capacity, clock, k, v), |s.log|, clock(s.tick))
  {
    hide OffsetOf, Find, Put;
    PutOne(s, capacity, clock, k, v);
    PutFinds(s, capacity, clock, k, v, k);
  }

  lemma NewPoints(clock: nat -> nat)
    ensures var s := NewStore(clock);
            Points(s, 0, clock(0)) && Points(s, 1, clock(0)) && Sorted(s.active.entries) && s.active.size == 34
  {
    hide InsertSorted, Find, Sorted;
    var s := NewStore(clock);
    var e1, e2 := Entry(TAIL_KEY, 0, clock(0), false), Entry(HEAD_KEY, OffsetOf(s.log, 1), clock(0), false);
    OffsetZero(s.log);
    EmptySorted();
    InsertKeepsSorted([], e1);
    InsertKeepsSorted(InsertSorted([], e1), e2);
    InsertFinds([], e1, TAIL_KEY);
    InsertFinds(InsertSorted([], e1), e2, TAIL_KEY);
    InsertFinds(InsertSorted([], e1), e2, HEAD_KEY);
  }

  lemma ThreeIs(capacity: nat, clock: nat -> nat)
    requires capacity >= 1000
    ensures var s := Three(capacity, clock);
            s.log == FirstFive(clock) && SamePlaces(NewStore(clock), s) && s.gc == [] && s.tick == 4 &&
            s.active.size == 76 && Sorted(s.active.entries) && Points(s, 0, clock(0)) && Points(s, 1, clock(0)) &&
            Points(s, 2, clock(1)) && Points(s, 4, clock(3))
  {
    hide Put, Points, Sorted;
    var s0 := NewStore(clock);
    NewPoints(clock);
    PutOne(s0, capacity, clock, A, [1]);
    PointsKept(s0, capacity, clock, A, [1], 0, clock(0));
    PointsKept(s0, capacity, clock, A, [1], 1, clock(0));
    PointsNew(s0, capacity, clock, A, [1]);
    var s1 := Put(s0, capacity, clock, A, [1]);
    PutOne(s1, capacity, clock, B, [1]);
    PointsKept(s1, capacity, clock, B, [1], 0, clock(0));
    PointsKept(s1, capacity, clock, B, [1], 1, clock(0));
    PointsKept(s1, capacity, clock, B, [1], 2, clock(1));
    var s2 := Put(s1, capacity, clock, B, [1]);
    PutOne(s2, capacity, clock, B, [2]);
    PointsKept(s2, capacity, clock, B, [2], 0, clock(0));
    PointsKept(s2, capacity, clock, B, [2], 1, clock(0));
    PointsKept(s2, capacity, clock, B, [2], 2, clock(1));
    PointsNew(s2, capacity, clock, B, [2]);
  }

  // ---------------------------------------------------------------------
  // Handing over a collection

  lemma {:induction false} InsertAllSize(m: Memtable, es: seq<Entry>)
    requires forall e | e in es :: |e.key| <= 4
    ensures InsertAll(m, es).size <= m.size + 17 * |es|
  {
    hide InsertSorted;
    if es != [] {
      InsertAllSize(m, es[..|es| - 1]);
      assert es[|es| - 1] in es;
    }
  }

  lemma {:induction false} InsertLength(es: seq<Entry>, e: Entry)
    ensures |InsertSorted(es, e)| <= |es| + 1
  {
    if es != [] && !Less(e.key, es[0].key) && es[0].key != e.key {
      InsertLength(es[1..], e);
    }
  }

  lemma {:induction false} EachLength(es: seq<Entry>)
    ensures |InsertEach([], es)| <= |es|
  {
    hide InsertSorted;
    if es != [] {
      EachLength(es[..|es| - 1]);
      InsertLength(InsertEach([], es[..|es| - 1]), es[|es| - 1]);
    }
  }

  /** The state after a rewrite and its hand-over. */
  lemma HandedOver(s: State, clock: nat -> nat, n: nat, vs: seq<(Key, Value)>)
    requires Inv(s, clock) && s.gc == [] && forall i | 0 <= i < |vs| :: |vs[i].0| <= 4
    ensures var m := Rewrite(s, clock, n, vs);
            var s' := Sync(m);
            m.gc != [] && s'.log == s.log + Appended(s, clock, n, vs) && s'.gc == [] && Sorted(s'.active.entries) &&
            s'.hole == s'.tail == s.tail + n && s'.tables == s.tables && s'.saved == s.saved &&
            s'.tick == s.tick + 2 * (|vs| + 1) && s'.active.size <= s.active.size + 17 * (|vs| + 1) &&
            (s.link.ToActive? ==> s'.link.ToActive?)
  {
    hide Inv, InsertSorted, InsertEach, InsertAll, Sorted, OffsetOf, ToLe, Updated, Rewrite, NewEntries, Appended;
    var recs := Appended(s, clock, n, vs);
    var es := NewEntries(s, clock, recs);
    var m := Rewrite(s, clock, n, vs);
    RewriteFields(s, clock, n, vs, []);
    RewriteLink(s, clock, n, vs);
    EachLength(es);
    InsertAllFinds(m.active, m.gc, []);
    EachMembers([], es);
    EntryKeys(s, clock, recs);
    forall e | e in m.gc
      ensures |e.key| <= 4
    {
      var j :| 0 <= j < |es| && es[j] == e;
      AppendedKey(s, clock, n, vs, j);
    }
    InsertAllSize(m.active, m.gc);
  }

  lemma AppendedKey(s: State, clock: nat -> nat, n: nat, vs: seq<(Key, Value)>, j: nat)
    requires j <= |vs|
    ensures Appended(s, clock, n, vs)[j].key == if j == 0 then TAIL_KEY else vs[j - 1].0
  {
    hide ToLe;
  }

  lemma RewriteLink(s: State, clock: nat -> nat, n: nat, vs: seq<(Key, Value)>)
    ensures var m := Rewrite(s, clock, n, vs);
            m.active.size == s.active.size && m.tables == s.tables && (s.link.ToActive? ==> m.link.ToActive?)
  {
    hide InsertEach, NewEntries, Appended;
  }

  /** What the active memtable has for a key after a rewrite and its hand-over. */
  lemma HandedFinds(s: State, clock: nat -> nat, n: nat, vs: seq<(Key, Value)>, k: Key)
    requires Inv(s, clock) && s.gc == [] && s.link.ToActive?
    ensures var recs := Appended(s, clock, n, vs);
            var es := NewEntries(s, clock, recs);
            |es| == |recs| && Find(Sync(Rewrite(s, clock, n, vs)).active.entries, k)
            == if Last(recs, k).Some? then Some(es[Last(recs, k).value]) else Find(s.active.entries, k)
  {
    hide Inv, InsertEach, InsertAll, Sorted, OffsetOf, Appended, Find, NewEntries, LastOf, Rewrite;
    var recs := Appended(s, clock, n, vs);
    var m := Rewrite(s, clock, n, vs);
    EntryKeys(s, clock, recs);
    LastOfAt(NewEntries(s, clock, recs), recs, k);
    RewriteFields(s, clock, n, vs, k);
    RewriteLink(s, clock, n, vs);
    InsertAllFinds(m.active, m.gc, k);
  }

  lemma PointsRewritten(s: State, clock: nat -> nat, n: nat, vs: seq<(Key, Value)>, q: nat)
    requires Inv(s, clock) && s.gc == [] && s.link.ToActive? && q <= |vs|
    requires var recs := Appended(s, clock, n, vs); forall j | q < j < |recs| :: recs[j].key != recs[q].key
    ensures Points(Sync(Rewrite(s, clock, n, vs)), |s.log| + q, clock(s.tick + |vs| + 1 + q))
  {
    hide Inv, InsertAll, OffsetOf, Appended, Find, Rewrite, Last;
    var recs := Appended(s, clock, n, vs);
    LastUnique(recs, recs[q].key, q);
    RewriteLog(s, clock, n, vs);
    HandedFinds(s, clock, n, vs, recs[q].key);
    assert (s.log + recs)[|s.log| + q] == recs[q];
  }

  lemma PointsUntouched(s: State, clock: nat -> nat, n: nat, vs: seq<(Key, Value)>, i: nat, time: nat)
    requires Inv(s, clock) && s.gc == [] && s.link.ToActive? && Points(s, i, time)
    requires var recs := Appended(s, clock, n, vs); forall j | 0 <= j < |recs| :: recs[j].key != s.log[i].key
    ensures Points(Sync(Rewrite(s, clock, n, vs)), i, time)
  {
    hide Inv, InsertAll, OffsetOf, Appended, Find, Rewrite, NewEntries;
    var recs := Appended(s, clock, n, vs);
    RewriteLog(s, clock, n, vs);
    HandedFinds(s, clock, n, vs, s.log[i].key);
    OffsetStable(s.log, recs, i);
  }

  lemma JudgePoints(s: State, clock: nat -> nat, r: Record, i: nat, time: nat)
    requires Inv(s, clock) && Points(s, i, time) && s.hole <= OffsetOf(s.log, i) && !s.log[i].tomb &&
             r.key == s.log[i].key
    requires s.log[i].value != MARKER && s.link.ToActive?
    ensures Judge(s, r) == Ok(if r.time < time then None else Some(s.log[i].value))
  {
    hide OffsetOf, Find, Inv, Judge;
    JudgeFound(s, clock, r, Entry(r.key, OffsetOf(s.log, i), time, false), i);
  }

  // ---------------------------------------------------------------------
  // The first collection

  lemma FiveSize(clock: nat -> nat)
    ensures var log := FirstFive(clock);
            |log| == 5 && Size(log) == 107 && Size(log[..4]) == 88 && Size(log[..3]) == 69 && Size(log[..2]) == 50
  {
    var log := FirstFive(clock);
    assert log[..1][..0] == [] && log[..2][..1] == log[..1] && log[..3][..2] == log[..2] && log[..4][..3] == log[..3];
    assert Size(log[..1]) == 25;
    assert Size(log[..2]) == 50;
    assert Size(log[..3]) == 69;
    assert Size(log[..4]) == 88;
  }

  lemma ThreeInv(capacity: nat, clock: nat -> nat)
    requires capacity >= 1000 && Ticking(clock) && clock(20) <= U64_LIMIT
    ensures Inv(Three(capacity, clock), clock)
    ensures var s1 := Put(NewStore(clock), capacity, clock, A, [1]);
            var s2 := Put(s1, capacity, clock, B, [1]);
            var s3 := Put(s2, capacity, clock, B, [2]);
            Small(NewStore(clock), clock(1)) && Small(s1, clock(s1.tick)) && Small(s2, clock(s2.tick)) &&
            Small(s3, clock(s3.tick))
  {
    hide Put, Inv, Sorted, Size, Points, InsertSorted;
    NewPoints(clock);
    NewStoreInv(clock);
    FiveSize(clock);
    var log := FirstFive(clock);
    var s0 := NewStore(clock);
    assert log[..2] == s0.log && log[..3][..2] == log[..2];
    PutOne(s0, capacity, clock, A, [1]);
    var s1 := Put(s0, capacity, clock, A, [1]);
    assert s1.log == log[..3];
    PutKeepsInv(s0, capacity, clock, A, [1]);
    PutOne(s1, capacity, clock, B, [1]);
    var s2 := Put(s1, capacity, clock, B, [1]);
    assert s2.log == log[..4];
    PutKeepsInv(s1, capacity, clock, B, [1]);
    PutOne(s2, capacity, clock, B, [2]);
    assert Put(s2, capacity, clock, B, [2]).log == log;
    PutKeepsInv(s2, capacity, clock, B, [2]);
  }

  function Valid4(): (vs: seq<(Key, Value)>)
  {
    [(TAIL_KEY, TAIL_KEY), (HEAD_KEY, HEAD_KEY), (A, [1]), (B, [2])]
  }

  /** Five records of which only the fourth is not valid. */
  lemma JudgeFive(s: State, rs: seq<Record>, a: Value, b: Value, c: Value, e: Value)
    requires |rs| == 5 && Judge(s, rs[0]) == Ok(Some(a)) && Judge(s, rs[1]) == Ok(Some(b)) &&
             Judge(s, rs[2]) == Ok(Some(c))
    requires Judge(s, rs[3]) == Ok(None) && Judge(s, rs[4]) == Ok(Some(e))
    ensures JudgeAll(s, rs) == Ok([(rs[0].key, a), (rs[1].key, b), (rs[2].key, c), (rs[4].key, e)])
  {
    hide Judge, JudgeAll;
    var va, vb, vc := (rs[0].key, a), (rs[1].key, b), (rs[2].key, c);
    JudgeNone(s, rs);
    JudgeStep(s, rs, 0, [], Some(a));
    assert [] + [va] == [va] && [va] + [vb] == [va, vb] && [va, vb] + [vc] == [va, vb, vc];
    JudgeStep(s, rs, 1, [va], Some(b));
    JudgeStep(s, rs, 2, [va, vb], Some(c));
    JudgeStep(s, rs, 3, [va, vb, vc], None);
    JudgeStep(s, rs, 4, [va, vb, vc], Some(e));
    assert rs[..5] == rs && [va, vb, vc] + [(rs[4].key, e)] == [va, vb, vc, (rs[4].key, e)];
  }

  /** Everything but the overwritten record of `B` is valid. */
  lemma FirstJudged(capacity: nat, clock: nat -> nat)
    requires capacity >= 1000 && Ticking(clock) && clock(20) <= U64_LIMIT
    ensures var s := Three(capacity, clock); JudgeAll(s, s.log) == Ok(Valid4())
  {
    hide Three, Inv, Points, Judge, OffsetOf, JudgeAll, Sorted, Small, Ticking, SamePlaces;
    var s := Three(capacity, clock);
    ThreeIs(capacity, clock);
    ThreeInv(capacity, clock);
    Later(clock, 2, 3);
    ThreeHole(capacity, clock);
    JudgePoints(s, clock, s.log[0], 0, clock(0));
    JudgePoints(s, clock, s.log[1], 1, clock(0));
    JudgePoints(s, clock, s.log[2], 2, clock(1));
    JudgePoints(s, clock, s.log[3], 4, clock(3));
    JudgePoints(s, clock, s.log[4], 4, clock(3));
    JudgeFive(s, s.log, TAIL_KEY, HEAD_KEY, [1], [2]);
  }

  lemma ThreeHole(capacity: nat, clock: nat -> nat)
    requires capacity >= 1000
    ensures Three(capacity, clock).hole == 0 && Three(capacity, clock).link.ToActive?
  {
    hide Three, Points, Sorted, FirstFive;
    ThreeIs(capacity, clock);
  }

  lemma JudgeNone(s: State, rs: seq<Record>)
    ensures JudgeAll(s, rs[..0]) == Ok([])
  {
  }

  /** The log after the first collection and the put that hands it over. */
  function Eleven(clock: nat -> nat): (log: seq<Record>)
  {
    FirstFive(clock) +
    [Record(TAIL_KEY, ToLe(107, 8), clock(4), false), Record(TAIL_KEY, TAIL_KEY, clock(5), false),
     Record(HEAD_KEY, HEAD_KEY, clock(6), false), Record(A, [1], clock(7), false), Record(B, [2], clock(8), false),
     Record(B, [3], clock(14), false)]
  }

  const Want1: nat := 108

  function Collected(capacity: nat, clock: nat -> nat): (s: State) { Collect(Three(capacity, clock), clock, Want1) }

  function Handed(capacity: nat, clock: nat -> nat): (s: State)
  {
    Put(Collected(capacity, clock), capacity, clock, B, [3])
  }

  lemma CollectedIs(capacity: nat, clock: nat -> nat)
    requires capacity >= 1000 && Ticking(clock) && clock(20) <= U64_LIMIT
    ensures Collected(capacity, clock) == Rewrite(Three(capacity, clock), clock, 107, Valid4())
  {
    hide Three, Inv, Points, JudgeAll, PlanFor, Rewrite, Ticking, FirstFive, Size, Sorted, Small;
    var s := Three(capacity, clock);
    ThreeIs(capacity, clock);
    ThreeInv(capacity, clock);
    FirstJudged(capacity, clock);
    FiveSize(clock);
    FiveLength(clock);
    OffsetZero(s.log);
    assert s.log[0..] == s.log;
    PlanAll(s, clock, 0, Valid4());
  }

  lemma FirstAppended(capacity: nat, clock: nat -> nat)
    requires capacity >= 1000
    ensures var s := Three(capacity, clock);
            s.log + Appended(s, clock, 107, Valid4()) + [Record(B, [3], clock(14), false)] == Eleven(clock)
    ensures var recs := Appended(Three(capacity, clock), clock, 107, Valid4());
            |recs| == 5 && recs[1].key == TAIL_KEY && recs[2].key == HEAD_KEY && recs[3].key == A && recs[4].key == B
  {
    hide Three, Points, ToLe, Sorted;
    ThreeIs(capacity, clock);
    var s := Three(capacity, clock);
    var recs := Appended(s, clock, 107, Valid4());
    assert recs == Eleven(clock)[5..10];
  }

  lemma ElevenKeys(clock: nat -> nat)
    ensures var log := Eleven(clock);
            |log| == 11 && log[5].key == log[6].key == TAIL_KEY && log[7].key == HEAD_KEY && log[8].key == A &&
            log[9].key == log[10].key == B
  {
    hide ToLe;
  }

  /** What the collector hands over. */
  lemma SyncedIs(capacity: nat, clock: nat -> nat)
    requires capacity >= 1000 && Ticking(clock) && clock(20) <= U64_LIMIT
    ensures var h := Sync(Collected(capacity, clock));
            h.log == Eleven(clock)[..10] && h.gc == [] && h.tick == 14 && h.hole == h.tail == 107 &&
            h.saved == [(DEFAULT_HEAD, 0)] && h.link.ToActive? && h.active.size <= 161 && Sorted(h.active.entries) &&
            Points(h, 6, clock(10)) && Points(h, 7, clock(11)) && Points(h, 8, clock(12))
    ensures var m := Collected(capacity, clock); m.gc != [] && m.tick == 14 && m.log == Eleven(clock)[..10]
  {
    hide Three, Points, Put, Rewrite, Sync, Appended, Sorted, Collected, Eleven, FirstFive, Inv, Small;
    var s := Three(capacity, clock);
    ThreeIs(capacity, clock);
    ThreeInv(capacity, clock);
    CollectedIs(capacity, clock);
    FirstAppended(capacity, clock);
    ElevenKeys(clock);
    FiveSize(clock);
    FiveLength(clock);
    HandedOver(s, clock, 107, Valid4());
    RewriteLog(s, clock, 107, Valid4());
    var h := Sync(Rewrite(s, clock, 107, Valid4()));
    assert (h.log + [Record(B, [3], clock(14), false)])[..10] == h.log;
    PointsRewritten(s, clock, 107, Valid4(), 1);
    PointsRewritten(s, clock, 107, Valid4(), 2);
    PointsRewritten(s, clock, 107, Valid4(), 3);
  }

  lemma FiveLength(clock: nat -> nat)
    ensures |FirstFive(clock)| == 5
  {
  }

  lemma HandedIs(capacity: nat, clock: nat -> nat)
    requires capacity >= 1000 && Ticking(clock) && clock(20) <= U64_LIMIT
    ensures var s := Handed(capacity, clock);
            s.log == Eleven(clock) && s.gc == [] && s.tick == 15 && s.hole == s.tail == 107 &&
            s.saved == [(DEFAULT_HEAD, 0)] && s.link.ToActive? && s.active.size <= 175 && Sorted(s.active.entries) &&
            Points(s, 6, clock(10)) && Points(s, 7, clock(11)) && Points(s, 8, clock(12)) && Points(s, 10, clock(14))
  {
    hide Points, Put, Sync, Sorted, Collected, Eleven;
    var m := Collected(capacity, clock);
    var h := Sync(m);
    SyncedIs(capacity, clock);
    ElevenKeys(clock);
    ElevenLast(clock);
    PutSyncs(m, capacity, clock, B, [3]);
    PutOne(h, capacity, clock, B, [3]);
    PointsKept(h, capacity, clock, B, [3], 6, clock(10));
    PointsKept(h, capacity, clock, B, [3], 7, clock(11));
    PointsKept(h, capacity, clock, B, [3], 8, clock(12));
    PointsNew(h, capacity, clock, B, [3]);
  }

  lemma ElevenLast(clock: nat -> nat)
    ensures |Eleven(clock)| == 11 && Eleven(clock) == Eleven(clock)[..10] + [Record(B, [3], clock(14), false)]
  {
    hide ToLe;
  }

  lemma RewriteLog(s: State, clock: nat -> nat, n: nat, vs: seq<(Key, Value)>)
    ensures var m := Rewrite(s, clock, n, vs);
            m.log == s.log + Appended(s, clock, n, vs) && Sync(m).log == m.log && m.tick == s.tick + 2 * (|vs| + 1)
  {
    hide InsertAll, InsertEach, NewEntries, Appended;
  }

  lemma ElevenSize(clock: nat -> nat)
    ensures var log := Eleven(clock); Size(log[..5]) == 107 && Size(log[..10]) == 224 && Size(log) == 243
  {
    hide ToLe, FirstFive;
    var log := Eleven(clock);
    FiveSize(clock);
    FiveLength(clock);
    assert log[..5] == FirstFive(clock);
    forall n | 5 <= n < 11
      ensures Size(log[..n + 1]) == Size(log[..n]) + RecordSize(log[n])
    {
      assert log[..n + 1] == log[..n] + [log[n]];
      SizeAppend(log[..n], log[n]);
    }
    assert |log[5].value| == 8;
    assert Size(log[..5 + 1]) == 136;
    assert Size(log[..6 + 1]) == 161;
    assert Size(log[..7 + 1]) == 186;
    assert Size(log[..8 + 1]) == 205;
    assert Size(log[..9 + 1]) == 224;
    assert Size(log[..10 + 1]) == 243;
    assert log[..11] == log;
  }

  lemma HandedInv(capacity: nat, clock: nat -> nat)
    requires capacity >= 1000 && Ticking(clock) && clock(20) <= U64_LIMIT
    ensures Inv(Handed(capacity, clock), clock)
    ensures var m, s := Collected(capacity, clock), Handed(capacity, clock);
            Small(m, clock(m.tick)) && Small(s, clock(s.tick))
  {
    hide Three, Points, Put, Sync, Sorted, Collect, Eleven, Inv, Size;
    ThreeInv(capacity, clock);
    SyncedIs(capacity, clock);
    HandedIs(capacity, clock);
    ElevenSize(clock);
    var m := Collected(capacity, clock);
    CollectKeepsInv(Three(capacity, clock), clock, Want1);
    PutKeepsInv(m, capacity, clock, B, [3]);
  }

  /** After the first completed collection the only saved head is in the hole: a crash now ends the store. */
  lemma NoWayBack(capacity: nat, clock: nat -> nat)
    requires capacity >= 1000 && Ticking(clock) && clock(20) <= U64_LIMIT
    ensures Exec(Handed(capacity, clock), capacity, clock, OpCrash(0)) == None
  {
    hide Handed, Points, Sorted, Eleven, Inv, Exec;
    HandedIs(capacity, clock);
    HandedInv(capacity, clock);
    CrashReopens(Handed(capacity, clock), capacity, clock, 0);
  }

  // ---------------------------------------------------------------------
  // The second collection

  /** Six records of which only the last is valid. */
  lemma JudgeSix(s: State, rs: seq<Record>, v: Value)
    requires |rs| == 6 && (forall i | 0 <= i < 5 :: Judge(s, rs[i]) == Ok(None)) && Judge(s, rs[5]) == Ok(Some(v))
    ensures JudgeAll(s, rs) == Ok([(rs[5].key, v)])
  {
    hide Judge, JudgeAll;
    JudgeNone(s, rs);
    JudgeStep(s, rs, 0, [], None);
    JudgeStep(s, rs, 1, [], None);
    JudgeStep(s, rs, 2, [], None);
    JudgeStep(s, rs, 3, [], None);
    JudgeStep(s, rs, 4, [], None);
    JudgeStep(s, rs, 5, [], Some(v));
    assert rs[..6] == rs && [] + [(rs[5].key, v)] == [(rs[5].key, v)];
  }

  lemma ElevenRecords(clock: nat -> nat)
    ensures var log := Eleven(clock);
            |log| == 11 && log[5].time == clock(4) && log[6] == Record(TAIL_KEY, TAIL_KEY, clock(5), false) &&
            log[7] == Record(HEAD_KEY, HEAD_KEY, clock(6), false) && log[8] == Record(A, [1], clock(7), false) &&
            log[9].time == clock(8) && log[10] == Record(B, [3], clock(14), false)
  {
    hide ToLe;
  }

  lemma AfterHole(clock: nat -> nat, i: nat)
    requires 5 <= i <= 11
    ensures |Eleven(clock)| == 11 && 107 <= OffsetOf(Eleven(clock), i) && (i < 11 ==> OffsetOf(Eleven(clock), i) < 243)
  {
    hide Eleven, Size;
    ElevenSize(clock);
    ElevenLast(clock);
    OffsetMonotone(Eleven(clock), 5, i);
    OffsetMonotone(Eleven(clock), i, 11);
    OffsetEnd(Eleven(clock));
  }

  /** How record `j` is judged, when record `i` is what the store has for its key. */
  lemma SecondJudge(s: State, clock: nat -> nat, j: nat, i: nat, time: nat)
    requires Inv(s, clock) && s.log == Eleven(clock) && s.hole == 107 && 5 <= j <= 10 && 6 <= i <= 10 && i != 9
    requires Points(s, i, time) && s.log[j].key == s.log[i].key && s.link.ToActive?
    ensures |s.log| == 11 && Judge(s, s.log[j]) == Ok(if s.log[j].time < time then None else Some(s.log[i].value))
  {
    hide Points, Sorted, Eleven, Inv, Judge, OffsetOf;
    ElevenRecords(clock);
    AfterHole(clock, i);
    JudgePoints(s, clock, s.log[j], i, time);
  }

  lemma Later(clock: nat -> nat, i: nat, j: nat)
    requires Ticking(clock) && i < j
    ensures clock(i) < clock(j)
  {
  }

  /** What was rewritten is not valid: its entry is later than its record. */
  lemma RewrittenJudged(s: State, clock: nat -> nat)
    requires Inv(s, clock) && s.log == Eleven(clock) && s.hole == 107 && Ticking(clock)
    requires Points(s, 6, clock(10)) && Points(s, 7, clock(11)) && Points(s, 8, clock(12)) && s.link.ToActive?
    ensures |s.log| == 11 && forall j | 5 <= j < 9 :: Judge(s, s.log[j]) == Ok(None)
  {
    hide Points, Eleven, Inv, Judge, Ticking;
    ElevenKeys(clock);
    ElevenRecords(clock);
    Later(clock, 4, 10);
    Later(clock, 5, 10);
    Later(clock, 6, 11);
    Later(clock, 7, 12);
    SecondJudge(s, clock, 5, 6, clock(10));
    SecondJudge(s, clock, 6, 6, clock(10));
    SecondJudge(s, clock, 7, 7, clock(11));
    SecondJudge(s, clock, 8, 8, clock(12));
  }

  /** Of `B` only the last record is valid. */
  lemma OverwrittenJudged(s: State, clock: nat -> nat)
    requires Inv(s, clock) && s.log == Eleven(clock) && s.hole == 107 && Ticking(clock) && Points(s, 10, clock(14))
    requires s.link.ToActive?
    ensures |s.log| == 11 && s.log[10].key == B
    ensures Judge(s, s.log[9]) == Ok(None) && Judge(s, s.log[10]) == Ok(Some([3]))
  {
    hide Points, Eleven, Inv, Judge, Ticking;
    ElevenKeys(clock);
    ElevenRecords(clock);
    Later(clock, 8, 14);
    SecondJudge(s, clock, 9, 10, clock(14));
    SecondJudge(s, clock, 10, 10, clock(14));
  }

  lemma SecondJudged(capacity: nat, clock: nat -> nat)
    requires capacity >= 1000 && Ticking(clock) && clock(20) <= U64_LIMIT
    ensures var s := Handed(capacity, clock); |s.log| == 11 && JudgeAll(s, s.log[5..]) == Ok([(B, [3])])
  {
    hide Handed, Points, Sorted, Eleven, Inv, Judge, JudgeAll, Ticking, Small;
    var s := Handed(capacity, clock);
    HandedIs(capacity, clock);
    HandedInv(capacity, clock);
    RewrittenJudged(s, clock);
    OverwrittenJudged(s, clock);
    LastSix(s, [3]);
  }

  lemma LastSix(s: State, v: Value)
    requires |s.log| == 11 && Judge(s, s.log[9]) == Ok(None) && Judge(s, s.log[10]) == Ok(Some(v))
    requires forall j | 5 <= j < 9 :: Judge(s, s.log[j]) == Ok(None)
    ensures JudgeAll(s, s.log[5..]) == Ok([(s.log[10].key, v)])
  {
    hide Judge, JudgeAll;
    var rs := s.log[5..];
    forall i | 0 <= i < 6
      ensures rs[i] == s.log[i + 5]
    {
    }
    JudgeSix(s, rs, v);
  }

  const Want2: nat := 244

  function Again(capacity: nat, clock: nat -> nat): (s: State) { Collect(Handed(capacity, clock), clock, Want2) }

  function Ended(capacity: nat, clock: nat -> nat): (s: State) { Put(Again(capacity, clock), capacity, clock, B, [4]) }

  lemma AgainIs(capacity: nat, clock: nat -> nat)
    requires capacity >= 1000 && Ticking(clock) && clock(20) <= U64_LIMIT
    ensures Again(capacity, clock) == Rewrite(Handed(capacity, clock), clock, 136, [(B, [3])])
  {
    hide Handed, Inv, Points, JudgeAll, PlanFor, Rewrite, Eleven, Size, Sorted;
    var s := Handed(capacity, clock);
    HandedIs(capacity, clock);
    HandedInv(capacity, clock);
    SecondJudged(capacity, clock);
    ElevenSize(clock);
    assert OffsetOf(s.log, 5) == 107;
    PlanAll(s, clock, 5, [(B, [3])]);
  }

  lemma SecondAppended(s: State, clock: nat -> nat)
    ensures var recs := Appended(s, clock, 136, [(B, [3])]);
            |recs| == 2 && recs[0].key == TAIL_KEY && |recs[0].value| == 8 && recs[1].key == B && |recs[1].value| == 1
  {
  }

  lemma EndedIs(capacity: nat, clock: nat -> nat)
    requires capacity >= 1000 && Ticking(clock) && clock(20) <= U64_LIMIT
    ensures var m, s := Again(capacity, clock), Ended(capacity, clock);
            m.tick == 19 && Size(m.log) == 291 && s.gc == [] && s.tick == 20 && s.hole == 243 && Size(s.log) == 310 &&
            |s.log| == 14 && s.log[..11] == Eleven(clock) && Points(s, 8, clock(12))
  {
    hide Handed, Points, Put, Rewrite, Sync, Appended, Sorted, Again, Eleven, Size, Inv;
    var s := Handed(capacity, clock);
    HandedIs(capacity, clock);
    HandedInv(capacity, clock);
    AgainIs(capacity, clock);
    ElevenKeys(clock);
    ElevenSize(clock);
    var vs := [(B, [3])];
    var recs := Appended(s, clock, 136, vs);
    SecondAppended(s, clock);
    HandedOver(s, clock, 136, vs);
    RewriteLog(s, clock, 136, vs);
    var m := Rewrite(s, clock, 136, vs);
    var h := Sync(m);
    PointsUntouched(s, clock, 136, vs, 8, clock(12));
    PutSyncs(m, capacity, clock, B, [4]);
    PutOne(h, capacity, clock, B, [4]);
    PointsKept(h, capacity, clock, B, [4], 8, clock(12));
    assert recs == [recs[0]] + [recs[1]];
    assert m.log == (s.log + [recs[0]]) + [recs[1]];
    SizeAppend(s.log, recs[0]);
    SizeAppend(s.log + [recs[0]], recs[1]);
    SizeAppend(h.log, Record(B, [4], clock(19), false));
  }

  /** The key that was written once and never touched again. */
  lemma KeyIsLost(capacity: nat, clock: nat -> nat)
    requires capacity >= 1000 && Ticking(clock) && clock(20) <= U64_LIMIT
    ensures Inv(Ended(capacity, clock), clock) && Get(Ended(capacity, clock), A) == Err(UnexpectedEof)
    ensures var m, s := Again(capacity, clock), Ended(capacity, clock);
            Small(m, clock(m.tick)) && Small(s, clock(s.tick))
  {
    hide Handed, Put, Collect, Eleven, Inv, Size, Get, Find;
    var m, s := Again(capacity, clock), Ended(capacity, clock);
    HandedInv(capacity, clock);
    EndedIs(capacity, clock);
    ElevenRecords(clock);
    CollectKeepsInv(Handed(capacity, clock), clock, Want2);
    PutKeepsInv(m, capacity, clock, B, [4]);
    AfterHole(clock, 8);
    assert s.log[..8] == Eleven(clock)[..8] && s.log[8] == Eleven(clock)[8];
    ReadInHole(s, clock, A, Entry(A, OffsetOf(s.log, 8), clock(12), false), 8);
  }

  // ---------------------------------------------------------------------
  // The run

  function Ops(): (ops: seq<Op>)
  {
    [OpPut(A, [1]), OpPut(B, [1]), OpPut(B, [2]), OpCollect(Want1), OpPut(B, [3]), OpCollect(Want2), OpPut(B, [4])]
  }

  function States(capacity: nat, clock: nat -> nat): (states: seq<State>)
  {
    var s1 := Put(NewStore(clock), capacity, clock, A, [1]);
    [NewStore(clock), s1, Put(s1, capacity, clock, B, [1]), Three(capacity, clock), Collected(capacity, clock),
     Handed(capacity, clock), Again(capacity, clock), Ended(capacity, clock)]
  }

  /** A run without a crash, a deletion or an error of any step: `A` is put once, the collector works twice,
      and in the end `A` cannot be read, while the plain map has it. In the middle, when `A` can still be
      read, no crash could be recovered from. */
  lemma LostKey(capacity: nat, clock: nat -> nat)
    requires capacity >= 1000 && Ticking(clock) && clock(20) <= U64_LIMIT
    ensures var states, ops := States(capacity, clock), Ops();
            Run(states, ops, capacity, clock) && UserKey(A) && Sized(A) &&
            Lookup(ApplyAll(ops), A) == Some([1]) && Get(states[7], A) == Err(UnexpectedEof) &&
            states[5].saved == [(DEFAULT_HEAD, 0)] && Exec(states[5], capacity, clock, OpCrash(0)) == None
  {
    hide Put, Collect, Get, Size, NewStore, Points, Eleven, Sorted, Inv;
    var states, ops := States(capacity, clock), Ops();
    NewStoreTick(clock);
    ThreeInv(capacity, clock);
    HandedInv(capacity, clock);
    HandedIs(capacity, clock);
    KeyIsLost(capacity, clock);
    NoWayBack(capacity, clock);
    MapHasIt();
    RunIs(states, ops, capacity, clock);
  }

  lemma NewStoreTick(clock: nat -> nat)
    ensures NewStore(clock).tick == 1
  {
  }

  lemma RunIs(states: seq<State>, ops: seq<Op>, capacity: nat, clock: nat -> nat)
    requires states == States(capacity, clock) && ops == Ops()
    requires forall i | 0 <= i < 8 :: Small(states[i], clock(states[i].tick))
    ensures Run(states, ops, capacity, clock)
  {
    hide Put, Collect, Small, NewStore;
    forall i | 0 <= i < 7
      ensures Exec(states[i], capacity, clock, ops[i]) == Some(states[i + 1])
    {
      if i == 0 {
      } else if i == 1 {
      } else if i == 2 {
      } else if i == 3 {
      } else if i == 4 {
      } else if i == 5 {
      }
    }
  }

  lemma MapHasIt()
    ensures Lookup(ApplyAll(Ops()), A) == Some([1])
  {
    var ops := Ops();
    assert ops[..1][..0] == [];
    assert ApplyAll(ops[..1]) == map[A := [1]];
    assert ops[..2][..1] == ops[..1] && ops[..3][..2] == ops[..2] && ops[..4][..3] == ops[..3];
    assert ops[..5][..4] == ops[..4] && ops[..6][..5] == ops[..5];
    assert A in ApplyAll(ops[..2]) && ApplyAll(ops[..2])[A] == [1];
    assert A in ApplyAll(ops[..3]) && ApplyAll(ops[..3])[A] == [1];
    assert A in ApplyAll(ops[..5]) && ApplyAll(ops[..5])[A] == [1];
  }

  // ---------------------------------------------------------------------
  // A put lost between its seal and its flush

  /** A put that seals the memtable saves the place of the last record as head. If the store crashes before
      the memtable is flushed, the replay starts behind that record, and a key whose only versions were in
      the memtable is gone. */
  lemma UnflushedIsLost(s: State, capacity: nat, clock: nat -> nat, m: map<Key, Value>, k0: Key, v: Value, h: nat,
                        k: Key)
    requires Right(s, clock, m, k) && UserKey(k) && Sized(k) && Ticking(clock) && s.gc == []
    requires Full(s.active, capacity, HEAD_KEY_SIZE) && k0 != k && Sized(k0) && ValueSized(v)
    requires h < |s.log| && OffsetOf(s.log, h) == s.active.recent && s.hole <= s.active.recent
    requires Last(s.log, k).Some? && Last(s.log, k).value <= h && Newest(s.tables, k).None?
    requires var s' := Put(s, capacity, clock, k0, v); Small(s', clock(s'.tick))
    ensures var s', n := Put(s, capacity, clock, k0, v), |s.saved|;
            n < |s'.saved| && Recover(s', capacity, n).Ok? && Get(Recover(s', capacity, n).value, k) == Ok(None)
  {
    hide Inv, KeyInv, Put, Recover, Newest, Find, OffsetOf, Replayed, Full, Last, Rebuilt, UpToDate;
    var s', n := Put(s, capacity, clock, k0, v), |s.saved|;
    PutKeepsInv(s, capacity, clock, k0, v);
    PutRight(s, capacity, clock, m, k0, v, k);
    SealingPut(s, capacity, clock, k0, v);
    var r := Record(k0, v, clock(s.tick), v == MARKER);
    OffsetStable(s.log, [r], h);
    LastAppend(s.log, r, k);
    RecoverReads(s', clock, capacity, n, h);
    KeyTimed(s', clock(s'.tick), k);
    RecoveredView(s', clock(s'.tick), capacity, n, h, k);
    NothingSelected(FromRecord(s', capacity, n, h), k);
  }

  lemma SealingPut(s: State, capacity: nat, clock: nat -> nat, k: Key, v: Value)
    requires s.gc == [] && Full(s.active, capacity, HEAD_KEY_SIZE) && Sized(k) && ValueSized(v)
    ensures var s' := Put(s, capacity, clock, k, v);
            s'.log == s.log + [Record(k, v, clock(s.tick), v == MARKER)] && s'.tables == s.tables &&
              s'.hole == s.hole &&
            s'.saved == s.saved + [(s.active.recent, s.tail)] && s'.tick == s.tick + 2 && s'.gc == [] &&
              s'.tail == s.tail && s'.link == LinkSealed(s)
  {
    hide InsertSorted, Size;
  }

  lemma KeyTimed(s: State, now: nat, k: Key)
    requires KeyInv(s, now, k)
    ensures LogTimed(s.log, now, k)
  {
  }

  lemma NothingSelected(s: State, k: Key)
    requires s.gc == [] && Select(s, k) == None && Sized(k)
    ensures Get(s, k) == Ok(None)
  {
    hide Newest;
    FindNone(k);
  }

  const CAPACITY: nat := 60

  function One(clock: nat -> nat): (s: State) { Put(NewStore(clock), CAPACITY, clock, A, [1]) }

  function Two(clock: nat -> nat): (s: State) { Put(One(clock), CAPACITY, clock, B, [1]) }

  function FirstFour(clock: nat -> nat): (log: seq<Record>)
  {
    FirstLog(clock(0)) + [Record(A, [1], clock(1), false), Record(B, [1], clock(2), false)]
  }

  lemma FourOffsets(clock: nat -> nat)
    ensures var log := FirstFour(clock);
            |log| == 4 && OffsetOf(log, 0) == 0 && OffsetOf(log, 1) == 25 && OffsetOf(log, 2) == 50 &&
            OffsetOf(log, 3) == 69 && Size(log) == 88 && Size(log[..3]) == 69 && Size(log[..2]) == 50
  {
    hide Size;
    var log := FirstFour(clock);
    OffsetZero(log);
    OffsetNext(log, 0);
    OffsetNext(log, 1);
    OffsetNext(log, 2);
    OffsetNext(log, 3);
    OffsetEnd(log);
  }

  /** The first put fills the memtable up. */
  lemma OneIs(clock: nat -> nat)
    ensures var s := One(clock);
            s.log == FirstFour(clock)[..3] && s.gc == [] && s.tick == 2 && SamePlaces(NewStore(clock), s) &&
            Sorted(s.active.entries) && s.active.size == 48 && s.active.recent == 50 &&
            Points(s, 0, clock(0)) && Points(s, 1, clock(0)) && Points(s, 2, clock(1))
  {
    hide Put, Points, Sorted;
    var s0 := NewStore(clock);
    NewPoints(clock);
    PutOne(s0, CAPACITY, clock, A, [1]);
    PointsNew(s0, CAPACITY, clock, A, [1]);
    PointsKept(s0, CAPACITY, clock, A, [1], 0, clock(0));
    PointsKept(s0, CAPACITY, clock, A, [1], 1, clock(0));
    OneRecent(clock);
    assert FirstFour(clock)[..3] == s0.log + [Record(A, [1], clock(1), false)];
  }

  lemma OneRecent(clock: nat -> nat)
    ensures One(clock).active.recent == 50
  {
    hide InsertSorted;
    var log := FirstLog(clock(0));
    FourOffsets(clock);
    assert FirstFour(clock)[..2] == log && log[..1] == FirstFour(clock)[..1];
  }

  lemma TwoShape(clock: nat -> nat)
    ensures var s1, s := One(clock), Two(clock);
            s.sealed == [InsertSorted(s1.active.entries, Entry(HEAD_KEY, 50, clock(3), false))] &&
            s.active.entries == InsertSorted([], Entry(B, Size(s1.log), clock(2), false)) && s.active.size == 14
  {
    hide InsertSorted, Size, One, Points, Sorted, FirstFour;
    OneIs(clock);
  }

  /** The second put seals it, with the record of `A` as head. The collector keeps what was sealed. */
  lemma TwoIs(clock: nat -> nat)
    requires Ticking(clock)
    ensures var s := Two(clock);
            s.log == FirstFour(clock) && s.gc == [] && s.tick == 4 && s.hole == 0 && s.tail == 0 && s.tables == [] &&
            s.saved == [(DEFAULT_HEAD, 0), (50, 0)] && s.link == ToSealed(0) && |s.sealed| == 1 &&
            Sorted(s.active.entries) && s.active.size == 14
    ensures Find(OwnTable(Two(clock)), TAIL_KEY) == Some(Entry(TAIL_KEY, 0, clock(0), false))
    ensures Find(OwnTable(Two(clock)), HEAD_KEY) == Some(Entry(HEAD_KEY, 50, clock(3), false))
    ensures Find(OwnTable(Two(clock)), A) == Some(Entry(A, 50, clock(1), false))
  {
    hide Put, Sorted, InsertSorted, Find, FirstFour, OffsetOf, Size;
    var s1, s := One(clock), Two(clock);
    OneIs(clock);
    TwoShape(clock);
    FourOffsets(clock);
    FourLast(clock);
    LastOfOne(clock);
    SealingPut(s1, CAPACITY, clock, B, [1]);
    var e, f := Entry(HEAD_KEY, 50, clock(3), false), Entry(B, Size(s1.log), clock(2), false);
    EmptySorted();
    InsertKeepsSorted([], f);
    InsertFinds(s1.active.entries, e, TAIL_KEY);
    InsertFinds(s1.active.entries, e, HEAD_KEY);
    InsertFinds(s1.active.entries, e, A);
    OffsetZero(s1.log);
    FourKeys(clock);
  }

  lemma FourKeys(clock: nat -> nat)
    ensures |FirstFour(clock)| == 4 && FirstFour(clock)[..3][0].key == TAIL_KEY && FirstFour(clock)[..3][2].key == A
  {
  }

  lemma FourLast(clock: nat -> nat)
    ensures FirstFour(clock)[..3] + [Record(B, [1], clock(2), false)] == FirstFour(clock)
  {
  }

  lemma TwoInv(clock: nat -> nat)
    requires Ticking(clock) && clock(20) <= U64_LIMIT
    ensures Inv(Two(clock), clock) && Right(One(clock), clock, map[A := [1]], A)
    ensures Small(NewStore(clock), clock(1)) && Small(One(clock), clock(2)) && Small(Two(clock), clock(4))
  {
    hide Put, Inv, KeyInv, Sorted, Size, Points, FirstFour, Current, Last, OwnTable;
    NewStoreRight(clock, A);
    NewStoreInv(clock);
    OneIs(clock);
    TwoIs(clock);
    FourOffsets(clock);
    FirstOfFour(clock);
    PutRight(NewStore(clock), CAPACITY, clock, map[], A, [1], A);
    PutKeepsInv(NewStore(clock), CAPACITY, clock, A, [1]);
    PutKeepsInv(One(clock), CAPACITY, clock, B, [1]);
  }

  lemma FirstOfFour(clock: nat -> nat)
    ensures NewStore(clock).log == FirstFour(clock)[..2] && NewStore(clock).tick == 1
  {
  }

  /** A run of two puts and a crash: the first put is gone, although both were acknowledged and the store came
      back. */
  lemma LostPut(clock: nat -> nat) returns (states: seq<State>, ops: seq<Op>)
    requires Ticking(clock) && clock(20) <= U64_LIMIT
    ensures ops == [OpPut(A, [1]), OpPut(B, [1]), OpCrash(1)] && Run(states, ops, CAPACITY, clock)
    ensures Lookup(ApplyAll(ops), A) == Some([1]) && Get(states[3], A) == Ok(None)
  {
    hide Put, Inv, Size, Points, FirstFour, Get, Right, Recover, NewStore, Sorted, OffsetOf, Last, OwnTable, Exec;
    TwoInv(clock);
    OneIs(clock);
    TwoIs(clock);
    FourOffsets(clock);
    LastOfOne(clock);
    NewStoreTick(clock);
    NewStorePlaces(clock);
    UnflushedIsLost(One(clock), CAPACITY, clock, map[A := [1]], B, [1], 2, A);
    RecoveredSame(Two(clock), 1);
    states := [NewStore(clock), One(clock), Two(clock), Recover(Two(clock), CAPACITY, 1).value];
    ops := [OpPut(A, [1]), OpPut(B, [1]), OpCrash(1)];
    PutStep(NewStore(clock), CAPACITY, clock, A, [1]);
    PutStep(One(clock), CAPACITY, clock, B, [1]);
    CrashStep(Two(clock), CAPACITY, clock, 1);
    TwoPutsMap();
  }

  lemma NewStorePlaces(clock: nat -> nat)
    ensures var s := NewStore(clock); s.saved == [(DEFAULT_HEAD, 0)] && s.tables == [] && s.hole == 0 && s.tail == 0
  {
  }

  lemma LastOfOne(clock: nat -> nat)
    ensures var log := FirstFour(clock)[..3]; |log| == 3 && Last(log, A) == Some(2) && OffsetOf(log, 2) == 50
  {
    hide Size;
    FourOffsets(clock);
    var log := FirstFour(clock)[..3];
    LastUnique(log, A, 2);
    assert log[..2] == FirstFour(clock)[..2];
  }

  lemma RecoveredSame(s: State, n: nat)
    requires n < |s.saved| && Recover(s, CAPACITY, n).Ok?
    ensures var s' := Recover(s, CAPACITY, n).value; s'.log == s.log && s'.tick == s.tick && s'.hole == s.hole
  {
    hide ParseAll, Replayed, File;
  }

  lemma TwoPutsMap()
    ensures Lookup(ApplyAll([OpPut(A, [1]), OpPut(B, [1]), OpCrash(1)]), A) == Some([1])
  {
    var ops := [OpPut(A, [1]), OpPut(B, [1]), OpCrash(1)];
    assert ops[..1][..0] == [] && ops[..2][..1] == ops[..1];
    assert ApplyAll(ops[..1]) == map[A := [1]];
    assert A in ApplyAll(ops[..2]) && ApplyAll(ops[..2])[A] == [1];
  }

  // ---------------------------------------------------------------------
  // A collector stuck after a crash

  const Want3: nat := 30

  const C: Key := [99]

  function Swept(clock: nat -> nat): (s: State) { Collect(Two(clock), clock, Want3) }

  function Opened(clock: nat -> nat): (s: State) { Put(Swept(clock), CAPACITY, clock, C, [1]) }

  /** Of the first two records only the tail is valid: the entry for the head has moved on with the seal. */
  lemma SweptIs(clock: nat -> nat)
    requires Ticking(clock) && clock(20) <= U64_LIMIT
    ensures Swept(clock) == Rewrite(Two(clock), clock, 50, [(TAIL_KEY, TAIL_KEY)])
  {
    hide Two, Inv, Judge, JudgeAll, Rewrite, OwnTable, Sorted, FirstFour, Size, File, ParseChunk, OffsetOf, Ticking,
         Small, Right, Find;
    var s := Two(clock);
    TwoIs(clock);
    TwoInv(clock);
    FourOffsets(clock);
    FourRecords(clock);
    SweptJudged(clock);
    FileHolds(s, clock);
    WellFormedLog(s, clock);
    var d := ChunkFrom(File(s), s.log, s.hole, 0, Want3, 0);
  }

  lemma SweptJudged(clock: nat -> nat)
    requires Ticking(clock) && clock(20) <= U64_LIMIT
    ensures var s := Two(clock); |s.log| == 4 && JudgeAll(s, s.log[0..2]) == Ok([(TAIL_KEY, TAIL_KEY)])
  {
    hide Two, Inv, Judge, JudgeAll, OwnTable, Sorted, FirstFour, Size, OffsetOf, Ticking, Small, Right,
         Find, CurrentValue;
    var s := Two(clock);
    TwoIs(clock);
    TwoInv(clock);
    FourOffsets(clock);
    FourRecords(clock);
    Later(clock, 0, 3);
    JudgeFound(s, clock, s.log[0], Entry(TAIL_KEY, 0, clock(0), false), 0);
    JudgeFound(s, clock, s.log[1], Entry(HEAD_KEY, 50, clock(3), false), 2);
    var rs := s.log[0..2];
    JudgeNone(s, rs);
    JudgeStep(s, rs, 0, [], Some(TAIL_KEY));
    assert [] + [(TAIL_KEY, TAIL_KEY)] == [(TAIL_KEY, TAIL_KEY)];
    JudgeStep(s, rs, 1, [(TAIL_KEY, TAIL_KEY)], None);
    assert rs[..2] == rs;
  }

  lemma FourRecords(clock: nat -> nat)
    ensures var log := FirstFour(clock);
            |log| == 4 && log[0] == Record(TAIL_KEY, TAIL_KEY, clock(0), false) &&
            log[1] == Record(HEAD_KEY, HEAD_KEY, clock(0), false) && log[2] == Record(A, [1], clock(1), false)
  {
  }

  /** A put changes no place but those of what it hands over, and forgets no saved pair. */
  lemma PutPlaces(s: State, capacity: nat, clock: nat -> nat, k: Key, v: Value)
    requires Sized(k) && ValueSized(v) && s.gc != []
    ensures var s' := Put(s, capacity, clock, k, v);
            s'.gc == [] && s'.hole == s'.tail == s.tail + s.pending && s.saved <= s'.saved &&
            s'.log == s.log + [Record(k, v, clock(s.tick), v == MARKER)] && s.tick < s'.tick <= s.tick + 2
  {
    hide InsertSorted, InsertAll, Size, Full;
  }

  lemma OpenedIs(clock: nat -> nat)
    requires Ticking(clock) && clock(20) <= U64_LIMIT
    ensures var m, s := Swept(clock), Opened(clock);
            Inv(s, clock) && s.gc == [] && s.hole == 50 && |s.saved| >= 2 && s.saved[1] == (50, 0) &&
            Small(m, clock(m.tick)) && Small(s, clock(s.tick))
  {
    hide Two, Inv, Put, Rewrite, Collect, OwnTable, Sorted, FirstFour, Size, Right;
    TwoIs(clock);
    TwoInv(clock);
    SweptIs(clock);
    FourOffsets(clock);
    var s0, m := Two(clock), Swept(clock);
    var vs := [(TAIL_KEY, TAIL_KEY)];
    HandedOver(s0, clock, 50, vs);
    RewriteLog(s0, clock, 50, vs);
    RewritePlaces(s0, clock, 50, vs);
    SweptSize(s0, clock);
    CollectKeepsInv(s0, clock, Want3);
    PutPlaces(m, CAPACITY, clock, C, [1]);
    SizeAppend(m.log, Record(C, [1], clock(m.tick), false));
    var s := Opened(clock);
    assert s.saved[1] == m.saved[1];
    PutKeepsInv(m, CAPACITY, clock, C, [1]);
  }

  lemma RewritePlaces(s: State, clock: nat -> nat, n: nat, vs: seq<(Key, Value)>)
    ensures var m := Rewrite(s, clock, n, vs); m.tail == s.tail && m.pending == n && m.saved == s.saved
  {
    hide InsertEach, NewEntries, Appended;
  }

  lemma SweptSize(s: State, clock: nat -> nat)
    ensures Size(s.log + Appended(s, clock, 50, [(TAIL_KEY, TAIL_KEY)])) == Size(s.log) + 54
  {
    hide Size;
    var recs := Appended(s, clock, 50, [(TAIL_KEY, TAIL_KEY)]);
    assert recs == [recs[0]] + [recs[1]];
    assert s.log + recs == (s.log + [recs[0]]) + [recs[1]];
    SizeAppend(s.log, recs[0]);
    SizeAppend(s.log + [recs[0]], recs[1]);
  }

  /** A run of three puts, a collection and a crash after which the store is open and its collector never works
      again: the head saved at the seal is just behind the hole, the tail saved with it is in front of it. */
  lemma CollectorStuck(clock: nat -> nat) returns (states: seq<State>, ops: seq<Op>)
    requires Ticking(clock) && clock(20) <= U64_LIMIT
    ensures ops == [OpPut(A, [1]), OpPut(B, [1]), OpCollect(Want3), OpPut(C, [1]), OpCrash(1)]
    ensures Run(states, ops, CAPACITY, clock) && Stuck(states[5])
  {
    hide Put, Inv, Size, FirstFour, Right, Recover, NewStore, Sorted, Collect, OwnTable, Exec, Points, Find, Stuck;
    TwoInv(clock);
    OneIs(clock);
    TwoIs(clock);
    NewStoreTick(clock);
    OpenedIs(clock);
    var s := Opened(clock);
    CrashReopens(s, CAPACITY, clock, 1);
    CrashStep(s, CAPACITY, clock, 1);
    RecoveredSame(s, 1);
    RecoveryStuckIff(s, CAPACITY, 1);
    states := [NewStore(clock), One(clock), Two(clock), Swept(clock), s, Recover(s, CAPACITY, 1).value];
    ops := [OpPut(A, [1]), OpPut(B, [1]), OpCollect(Want3), OpPut(C, [1]), OpCrash(1)];
    PutStep(NewStore(clock), CAPACITY, clock, A, [1]);
    PutStep(One(clock), CAPACITY, clock, B, [1]);
    CollectStep(Two(clock), CAPACITY, clock, Want3);
    PutStep(Swept(clock), CAPACITY, clock, C, [1]);
  }

  // ---------------------------------------------------------------------
  // An update undone by a collection after a seal

  const Want4: nat := 51

  function Overwritten(clock: nat -> nat): (s: State) { Put(Two(clock), CAPACITY, clock, A, [2]) }

  function Undone(clock: nat -> nat): (s: State) { Collect(Overwritten(clock), clock, Want4) }

  function Back(clock: nat -> nat): (s: State) { Put(Undone(clock), CAPACITY, clock, C, [1]) }

  lemma OverwrittenIs(clock: nat -> nat)
    requires Ticking(clock)
    ensures var s := Overwritten(clock);
            s.log == FirstFour(clock) + [Record(A, [2], clock(4), false)] && s.gc == [] && s.tick == 5 && s.hole == 0 &&
            s.tail == 0 && OwnTable(s) == OwnTable(Two(clock))
  {
    hide Put, Two, Sorted, FirstFour, Find;
    TwoIs(clock);
    PutOne(Two(clock), CAPACITY, clock, A, [2]);
  }

  lemma OverwrittenRight(clock: nat -> nat)
    requires Ticking(clock) && clock(20) <= U64_LIMIT
    ensures var s := Overwritten(clock);
            Right(s, clock, map[A := [1]][B := [1]][A := [2]], A) && Small(s, clock(5)) && Size(s.log) == 107
  {
    hide Put, Inv, KeyInv, Sorted, Size, FirstFour, Current, OwnTable, Right;
    TwoInv(clock);
    OneIs(clock);
    TwoIs(clock);
    FourOffsets(clock);
    OverwrittenIs(clock);
    PutRight(One(clock), CAPACITY, clock, map[A := [1]], B, [1], A);
    SizeAppend(FirstFour(clock), Record(A, [2], clock(4), false));
    PutRight(Two(clock), CAPACITY, clock, map[A := [1]][B := [1]], A, [2], A);
  }

  lemma FiveOffsets(clock: nat -> nat)
    ensures var log := FirstFour(clock) + [Record(A, [2], clock(4), false)];
            |log| == 5 && OffsetOf(log, 0) == 0 && OffsetOf(log, 1) == 25 && OffsetOf(log, 2) == 50 &&
            OffsetOf(log, 3) == 69 && OffsetOf(log, 4) == 88 &&
            log[0] == Record(TAIL_KEY, TAIL_KEY, clock(0), false) && log[1].key == HEAD_KEY &&
            log[1].time == clock(0) && log[2] == Record(A, [1], clock(1), false)
  {
    hide OffsetOf;
    var r := Record(A, [2], clock(4), false);
    FourOffsets(clock);
    FourRecords(clock);
    OffsetStable(FirstFour(clock), [r], 0);
    OffsetStable(FirstFour(clock), [r], 1);
    OffsetStable(FirstFour(clock), [r], 2);
    OffsetStable(FirstFour(clock), [r], 3);
    OffsetStable(FirstFour(clock), [r], 4);
    OffsetEnd(FirstFour(clock));
  }

  /** The collector still has the first put of `A`, and judges its record valid. */
  lemma UndoneIs(clock: nat -> nat)
    requires Ticking(clock) && clock(20) <= U64_LIMIT
    ensures var s := Overwritten(clock);
            Rewrites(s, Want4, A) && ValueSeen(s, A) == Some([1]) &&
            Undone(clock) == Rewrite(s, clock, 69, [(TAIL_KEY, TAIL_KEY), (A, [1])])
  {
    hide Overwritten, Inv, Judge, JudgeAll, Rewrite, OwnTable, Sorted, FirstFour, Size, File, ParseChunk, OffsetOf,
         Ticking, Small, KeyInv, Find, Two, CurrentValue, Current;
    var s := Overwritten(clock);
    TwoIs(clock);
    OverwrittenIs(clock);
    OverwrittenRight(clock);
    FiveOffsets(clock);
    Later(clock, 0, 3);
    JudgeFound(s, clock, s.log[0], Entry(TAIL_KEY, 0, clock(0), false), 0);
    JudgeFound(s, clock, s.log[1], Entry(HEAD_KEY, 50, clock(3), false), 2);
    JudgeFound(s, clock, s.log[2], Entry(A, 50, clock(1), false), 2);
    var rs := s.log[0..3];
    JudgeThree(s, rs, TAIL_KEY, [1]);
    FileHolds(s, clock);
    WellFormedLog(s, clock);
    var d := ChunkFrom(File(s), s.log, s.hole, 0, Want4, 0);
    assert d == 3;
    assert rs[2] == s.log[2];
  }

  /** Three records of which only the second is not valid. */
  lemma JudgeThree(s: State, rs: seq<Record>, a: Value, c: Value)
    requires |rs| == 3 && Judge(s, rs[0]) == Ok(Some(a)) && Judge(s, rs[1]) == Ok(None) &&
             Judge(s, rs[2]) == Ok(Some(c))
    ensures JudgeAll(s, rs) == Ok([(rs[0].key, a), (rs[2].key, c)])
  {
    hide Judge, JudgeAll;
    JudgeNone(s, rs);
    JudgeStep(s, rs, 0, [], Some(a));
    assert [] + [(rs[0].key, a)] == [(rs[0].key, a)];
    JudgeStep(s, rs, 1, [(rs[0].key, a)], None);
    JudgeStep(s, rs, 2, [(rs[0].key, a)], Some(c));
    assert rs[..3] == rs && [(rs[0].key, a)] + [(rs[2].key, c)] == [(rs[0].key, a), (rs[2].key, c)];
  }

  lemma UndoneRight(clock: nat -> nat)
    requires Ticking(clock) && clock(20) <= U64_LIMIT
    ensures var m := Undone(clock);
            Right(m, clock, map[A := [1]], A) && m.gc != [] && m.tick == 11 && Size(m.log) == 180 && m.tail == 0
  {
    hide Overwritten, Inv, KeyInv, Rewrite, Collect, Size, Current, Rewrites, ValueSeen, Loses, Appended;
    var s, m := Overwritten(clock), Undone(clock);
    var vs := [(TAIL_KEY, TAIL_KEY), (A, [1])];
    OverwrittenIs(clock);
    OverwrittenRight(clock);
    UndoneIs(clock);
    LosesOrRewrites(s, Want4, A);
    RewriteFields(s, clock, 69, vs, []);
    UndoneSize(s, clock);
    CollectKeepsInv(s, clock, Want4);
    CollectKeepsKey(s, clock, Want4, A);
    CollectKeepsCurrent(s, clock, clock(s.tick), Want4, A);
  }

  lemma UndoneSize(s: State, clock: nat -> nat)
    ensures var recs := Appended(s, clock, 69, [(TAIL_KEY, TAIL_KEY), (A, [1])]);
            |recs| == 3 && Size(s.log + recs) == Size(s.log) + 73
  {
    hide Size;
    var recs := Appended(s, clock, 69, [(TAIL_KEY, TAIL_KEY), (A, [1])]);
    assert recs == [recs[0]] + [recs[1]] + [recs[2]];
    assert s.log + recs == s.log + [recs[0]] + [recs[1]] + [recs[2]];
    SizeAppend(s.log, recs[0]);
    SizeAppend(s.log + [recs[0]], recs[1]);
    SizeAppend(s.log + [recs[0]] + [recs[1]], recs[2]);
  }

  /** A run without a crash, a deletion or an error of any step, in which the memtable is sealed once: `A` is
      put twice, and after a collection it reads as the first put again, and so it stays. */
  lemma OldValueBack(clock: nat -> nat) returns (states: seq<State>, ops: seq<Op>)
    requires Ticking(clock) && clock(20) <= U64_LIMIT
    ensures ops == [OpPut(A, [1]), OpPut(B, [1]), OpPut(A, [2]), OpCollect(Want4), OpPut(C, [1])]
    ensures Run(states, ops, CAPACITY, clock) && Reverts(states[3], Want4, A)
    ensures Lookup(ApplyAll(ops), A) == Some([2]) && Get(states[3], A) == Ok(Some([2]))
    ensures Get(states[5], A) == Ok(Some([1])) && Right(states[5], clock, map[A := [1]][C := [1]], A)
  {
    hide Put, Inv, KeyInv, Size, FirstFour, NewStore, Sorted, Collect, OwnTable, Current, Rewrites, ValueSeen, Get,
         Find, Right, Rewrite;
    TwoInv(clock);
    OneIs(clock);
    TwoIs(clock);
    NewStoreTick(clock);
    OverwrittenIs(clock);
    OverwrittenRight(clock);
    UndoneIs(clock);
    UndoneRight(clock);
    var s, m, e := Overwritten(clock), Undone(clock), Back(clock);
    PutPlaces(m, CAPACITY, clock, C, [1]);
    SizeAppend(m.log, Record(C, [1], clock(11), false));
    PutRight(m, CAPACITY, clock, map[A := [1]], C, [1], A);
    GetRight(s, clock, map[A := [1]][B := [1]][A := [2]], A);
    GetRight(e, clock, map[A := [1]][C := [1]], A);
    RightCurrent(s, clock, map[A := [1]][B := [1]][A := [2]], A);
    states := [NewStore(clock), One(clock), Two(clock), s, m, e];
    ops := [OpPut(A, [1]), OpPut(B, [1]), OpPut(A, [2]), OpCollect(Want4), OpPut(C, [1])];
    PutStep(NewStore(clock), CAPACITY, clock, A, [1]);
    PutStep(One(clock), CAPACITY, clock, B, [1]);
    PutStep(Two(clock), CAPACITY, clock, A, [2]);
    CollectStep(s, CAPACITY, clock, Want4);
    PutStep(m, CAPACITY, clock, C, [1]);
    ThreePutsMap();
  }

  lemma RightCurrent(s: State, clock: nat -> nat, m: map<Key, Value>, k: Key)
    requires Right(s, clock, m, k)
    ensures Current(s.log, k) == Lookup(m, k)
  {
  }

  lemma ThreePutsMap()
    ensures Lookup(ApplyAll([OpPut(A, [1]), OpPut(B, [1]), OpPut(A, [2]), OpCollect(Want4), OpPut(C, [1])]), A)
         == Some([2])
  {
    var ops := [OpPut(A, [1]), OpPut(B, [1]), OpPut(A, [2]), OpCollect(Want4), OpPut(C, [1])];
    assert ops[..3][..2] == ops[..2] && ops[..4][..3] == ops[..3];
    assert A in ApplyAll(ops[..3]) && ApplyAll(ops[..3])[A] == [2];
    assert A in ApplyAll(ops[..4]) && ApplyAll(ops[..4])[A] == [2];
  }
}
