/** The garbage collector of the value log: it reads a chunk at the tail, rewrites what is still valid at
    the end of the log, and hands the new places over to the store, which then punches the chunk.
 */
module Collector {
  import opened Wrappers
  import opened Bytes
  import opened Entries
  import opened LogCodec
  import opened Merge
  import opened Memtables
  import opened Store
  import opened StoreSteps
  import SsTable

  // ---------------------------------------------------------------------
  // The collector

  /** The version the collector sees: its own table comes first, then the newest sealed version, then the
      newest version of the SSTables. Once its table is no longer the active memtable's, it does not see
      what the store writes. */
  function Seen(s: State, k: Key): (r: Option<Entry>)
  {
    var t := Find(OwnTable(s), k);
    if t.Some? then t else
    var m := Newest(s.sealed, k);
    if m.Some? then m else Newest(s.tables, k)
  }

  /** `GC::get`: the value and time of the version seen, or nothing. */
  function CurrentValue(s: State, k: Key): (r: Result<Option<(Value, nat)>>)
  {
    var x := Seen(s, k);
    if x.None? || x.value.tomb then Ok(None) else
    match GetValue(File(s), x.value.offset)
    case Err(e) => Err(e)
    case Ok(None) => Ok(None)
    case Ok(Some((v, tomb))) => if tomb then Ok(None) else Ok(Some((v, x.value.time)))
  }

  /** Whether a record of the chunk is still valid, and with which value. */
  function Judge(s: State, r: Record): (v: Result<Option<Value>>)
  {
    match CurrentValue(s, r.key)
    case Err(e) => Err(e)
    case Ok(None) => Ok(None)
    case Ok(Some((v, time))) => if r.time < time || v == MARKER then Ok(None) else Ok(Some(v))
  }

  /** The valid entries of a chunk, in the order of their records. */
  function JudgeAll(s: State, rs: seq<Record>): (r: Result<seq<(Key, Value)>>)
    ensures r.Ok? ==> |r.value| <= |rs|
  {
    if rs == [] then Ok([]) else
    var n := |rs| - 1;
    match JudgeAll(s, rs[..n])
    case Err(e) => Err(e)
    case Ok(vs) =>
      match Judge(s, rs[n])
      case Err(e) => Err(e)
      case Ok(None) => Ok(vs)
      case Ok(Some(v)) => Ok(vs + [(rs[n].key, v)])
  }

  /** The records the collector appends: the new tail, then the valid entries. */
  function Appended(s: State, clock: nat -> nat, n: nat, vs: seq<(Key, Value)>): (recs: seq<Record>)
    ensures |recs| == |vs| + 1
  {
    [Record(TAIL_KEY, ToLe(s.tail + n, 8), clock(s.tick), false)] +
    seq(|vs|, j requires 0 <= j < |vs| => Record(vs[j].0, vs[j].1, clock(s.tick + 1 + j), false))
  }

  /** Their entries carry the time at which they are put into the collector's table, which is later than
      the time in their records. */
  function NewEntries(s: State, clock: nat -> nat, recs: seq<Record>): (es: seq<Entry>)
    ensures |es| == |recs|
  {
    seq(|recs|, j requires 0 <= j < |recs| =>
      Entry(recs[j].key, OffsetOf(s.log + recs, |s.log| + j), clock(s.tick + |recs| + j), false))
  }

  function InsertEach(t: seq<Entry>, es: seq<Entry>): (r: seq<Entry>)
  {
    if es == [] then t else InsertSorted(InsertEach(t, es[..|es| - 1]), es[|es| - 1])
  }

  /** `GC::put` of each entry: into what waits to be handed over, and into the collector's own table, that is,
      into the map it shares. */
  function PutEach(s: State, es: seq<Entry>): (s': State)
  {
    var s1 := s.(gc := InsertEach(s.gc, es));
    match s.link
    case ToActive => s1.(active := s.active.(entries := InsertEach(s.active.entries, es)))
    case ToSealed(i) => if i < |s.sealed| then s1.(sealed := s.sealed[i := InsertEach(s.sealed[i], es)]) else s1
    case ToTable(t) => s1.(link := ToTable(InsertEach(t, es)))
  }

  function Rewrite(s: State, clock: nat -> nat, n: nat, vs: seq<(Key, Value)>): (s': State)
  {
    var recs := Appended(s, clock, n, vs);
    PutEach(s.(log := s.log + recs, pending := n, tick := s.tick + 2 * |recs|), NewEntries(s, clock, recs))
  }

  datatype Plan = Plan(bytes: nat, chunk: seq<Record>, valid: seq<(Key, Value)>)

  /** What the collector is about to do; nothing while its last result waits to be handed over, when the
      chunk cannot be read or judged, or when every record of it is still valid. */
  function PlanFor(s: State, want: nat): (p: Option<Plan>)
  {
    if s.gc != [] then None else
    match ParseChunk(File(s), s.tail, want, 0)
    case Err(_) => None
    case Ok((rs, n)) =>
      match JudgeAll(s, rs)
      case Err(_) => None
      case Ok(vs) => if |vs| == |rs| then None else Some(Plan(n, rs, vs))
  }

  /** `gc_handler` */
  function Collect(s: State, clock: nat -> nat, want: nat): (s': State)
  {
    match PlanFor(s, want)
    case None => s
    case Some(p) => Rewrite(s, clock, p.bytes, p.valid)
  }

  // ---------------------------------------------------------------------
  // The chunk

  /** The chunk is a run of whole records from the tail on, and the tail is the end of the hole. */
  ghost predicate ChunkAt(s: State, p: Plan, c: nat, d: nat)
  {
    c <= d <= |s.log| && OffsetOf(s.log, c) == s.tail == s.hole && p.chunk == s.log[c..d] &&
    OffsetOf(s.log, d) == s.tail + p.bytes
  }

  lemma PlanChunk(s: State, clock: nat -> nat, want: nat) returns (c: nat, d: nat)
    requires Inv(s, clock) && PlanFor(s, want).Some?
    ensures ChunkAt(s, PlanFor(s, want).value, c, d)
    ensures s.gc == [] && JudgeAll(s, s.log[c..d]) == Ok(PlanFor(s, want).value.valid)
  {
    hide File, OffsetOf, ParseChunk, JudgeAll, Sorted;
    FileHolds(s, clock);
    c :| 0 <= c <= |s.log| && OffsetOf(s.log, c) == s.tail;
    var h: nat :| h <= |s.log| && OffsetOf(s.log, h) == s.hole;
    if c < h {
      ChunkInHole(File(s), s.log, s.hole, c, h, want);
      assert false;
    }
    OffsetMonotone(s.log, h, c);
    d := ChunkFrom(File(s), s.log, s.hole, c, want, 0);
  }

  // ---------------------------------------------------------------------
  // How the records of one key are judged

  /** The value of the version seen. */
  function ValueSeen(s: State, k: Key): (v: Option<Value>)
  {
    match CurrentValue(s, k)
    case Ok(Some((v, _))) => Some(v)
    case _ => None
  }

  lemma SeenOk(s: State, now: nat, k: Key)
    requires Sound(s, now, k)
    ensures EntryOk(s.log, now, Seen(s, k))
    ensures Seen(s, k).Some? ==> Seen(s, k).value.key == k
  {
    hide Newest, Find, VersionOk;
    NewestIsLast(s.log, now, s.sealed, k);
    NewestIsLast(s.log, now, s.tables, k);
    NewestKey(s.sealed, k);
    NewestKey(s.tables, k);
    FindMember(OwnTable(s), k);
    FindNone(k);
    if s.link.ToSealed? && s.link.index < |s.sealed| && Seen(s, k).Some? {
      SealedVersion(s.sealed, s.link.index, Seen(s, k).value);
    }
  }

  /** A live version seen is read at its record, unless that record is in the hole. */
  lemma SeenRead(s: State, clock: nat -> nat, now: nat, k: Key, i: nat)
    requires Inv(s, clock) && LogTimed(s.log, now, k) && Live(Seen(s, k)) && Seen(s, k).value.key == k
    requires Backed(s.log, Seen(s, k).value, i)
    ensures CurrentValue(s, k)
         == if s.hole <= OffsetOf(s.log, i) then Ok(Some((s.log[i].value, Seen(s, k).value.time)))
            else Err(UnexpectedEof)
    ensures s.log[i].value != MARKER
  {
    hide File, OffsetOf, GetValue, Seen, Inv, Last;
    LiveRead(s, clock, Seen(s, k).value, i);
  }

  /** A record that can be judged is valid if and only if the version seen is live and not newer. What is then
      rewritten is the value of the version seen, which need not be that of the record. */
  lemma JudgeKey(s: State, clock: nat -> nat, now: nat, r: Record)
    requires Inv(s, clock) && LogTimed(s.log, now, r.key) && Sound(s, now, r.key) && Judge(s, r).Ok?
    ensures var x := Seen(s, r.key);
            Judge(s, r) == Ok(if Live(x) && r.time >= x.value.time then ValueSeen(s, r.key) else None) &&
            (Live(x) ==> ValueSeen(s, r.key).Some? && ValueSeen(s, r.key).value != MARKER)
  {
    hide Inv, OffsetOf, GetValue, Seen, Backed, LogTimed, Sound;
    SeenOk(s, now, r.key);
    if Live(Seen(s, r.key)) {
      var i :| Backed(s.log, Seen(s, r.key).value, i);
      SeenRead(s, clock, now, r.key, i);
    }
  }

  // ---------------------------------------------------------------------
  // What is seen, and when there is something to collect

  ghost predicate Absent(tables: seq<seq<Entry>>, k: Key)
  {
    forall e: Entry | e.key == k :: !Version(tables, e)
  }

  /** A version of the key in one of the tables, with the greatest time. */
  ghost predicate Greatest(tables: seq<seq<Entry>>, e: Entry)
  {
    Version(tables, e) && forall x: Entry | x.key == e.key && Version(tables, x) :: x.time <= e.time
  }

  ghost predicate TimesPositive(tables: seq<seq<Entry>>, k: Key)
  {
    forall e: Entry | e.key == k && Version(tables, e) :: e.time > 0
  }

  lemma NewestIsGreatest(tables: seq<seq<Entry>>, k: Key)
    requires TimesPositive(tables, k)
    ensures var r := Newest(tables, k);
            if Absent(tables, k) then r.None? else r.Some? && r.value.key == k && Greatest(tables, r.value)
  {
    hide Newest;
    NewestIsLatest(tables, k);
    NewestKey(tables, k);
  }

  /** Whatever the collector's table is, it sees the version in it, else the latest one of the sealed memtables,
      else the latest one of the SSTables. It sees nothing if and only if none of the three has a version. */
  lemma SeenIs(s: State, k: Key)
    requires TimesPositive(s.sealed, k) && TimesPositive(s.tables, k)
    ensures var own, x := Find(OwnTable(s), k), Seen(s, k);
            if own.Some? then x == own
            else if !Absent(s.sealed, k) then x.Some? && x.value.key == k && Greatest(s.sealed, x.value)
            else if !Absent(s.tables, k) then x.Some? && x.value.key == k && Greatest(s.tables, x.value)
            else x.None?
  {
    hide Newest, Find, OwnTable, Absent, Greatest, TimesPositive;
    NewestIsGreatest(s.sealed, k);
    NewestIsGreatest(s.tables, k);
  }

  /** How a record is judged, whatever its key, when the version seen is that of the `i`-th record. */
  lemma JudgeAt(s: State, clock: nat -> nat, r: Record, i: nat)
    requires Inv(s, clock) && Live(Seen(s, r.key)) && i < |s.log| && Seen(s, r.key).value.offset == OffsetOf(s.log, i)
    ensures Judge(s, r)
         == if OffsetOf(s.log, i) < s.hole then Err(UnexpectedEof)
            else if r.time < Seen(s, r.key).value.time || s.log[i].tomb || s.log[i].value == MARKER then Ok(None)
            else Ok(Some(s.log[i].value))
  {
    hide Inv, Seen, OffsetOf, GetValue, File;
    ReadAt(s, clock, i);
  }

  /** There is no live version of the record's key, or a later one, or the one seen is read as a deletion. */
  ghost predicate Stale(s: State, r: Record)
  {
    var x := Seen(s, r.key);
    !Live(x) || r.time < x.value.time ||
    exists i | 0 <= i < |s.log| :: OffsetOf(s.log, i) == x.value.offset && (s.log[i].tomb || s.log[i].value == MARKER)
  }

  lemma JudgeStale(s: State, clock: nat -> nat, r: Record)
    requires Inv(s, clock) && Judge(s, r).Ok?
    requires Live(Seen(s, r.key)) ==> RecordAt(s.log, Seen(s, r.key).value.offset)
    ensures Judge(s, r) == Ok(None) <==> Stale(s, r)
  {
    hide Inv, Seen, OffsetOf, GetValue, File;
    var x := Seen(s, r.key);
    if Live(x) {
      var i: nat :| i < |s.log| && OffsetOf(s.log, i) == x.value.offset;
      JudgeAt(s, clock, r, i);
      forall j | 0 <= j < |s.log| && OffsetOf(s.log, j) == OffsetOf(s.log, i)
        ensures j == i
      {
        if i < j {
          OffsetMonotone(s.log, i, j);
        } else if j < i {
          OffsetMonotone(s.log, j, i);
        }
      }
    }
  }

  /** Every record of the chunk is valid if and only if as many entries are kept as were read. */
  lemma {:induction false} JudgeCount(s: State, rs: seq<Record>)
    ensures JudgeAll(s, rs).Ok? <==> forall r | r in rs :: Judge(s, r).Ok?
    ensures JudgeAll(s, rs).Ok? ==>
              (|JudgeAll(s, rs).value| < |rs| <==> exists r | r in rs :: Judge(s, r) == Ok(None))
  {
    hide Judge;
    if rs != [] {
      var n := |rs| - 1;
      JudgeCount(s, rs[..n]);
      assert rs == rs[..n] + [rs[n]];
    }
  }

  /** The chunk can be read and every record in it judged, with nothing waiting to be handed over. */
  ghost predicate Judged(s: State, want: nat)
  {
    s.gc == [] && ParseChunk(File(s), s.tail, want, 0).Ok? &&
    forall r | r in ParseChunk(File(s), s.tail, want, 0).value.0 :: Judge(s, r).Ok?
  }

  /** A collection changes the state if and only if its chunk can be judged and some record of it is stale. */
  lemma CollectsIff(s: State, clock: nat -> nat, want: nat)
    requires Inv(s, clock)
    requires Judged(s, want) ==>
               forall r | r in ParseChunk(File(s), s.tail, want, 0).value.0 && Live(Seen(s, r.key)) ::
                 RecordAt(s.log, Seen(s, r.key).value.offset)
    ensures Collect(s, clock, want) != s <==>
            Judged(s, want) && exists r | r in ParseChunk(File(s), s.tail, want, 0).value.0 :: Stale(s, r)
  {
    hide Inv, File, ParseChunk, JudgeAll, Judge, Seen, Stale, RecordAt, PutEach, NewEntries;
    if s.gc == [] && ParseChunk(File(s), s.tail, want, 0).Ok? {
      var rs := ParseChunk(File(s), s.tail, want, 0).value.0;
      JudgeCount(s, rs);
      if Judged(s, want) {
        forall r | r in rs
          ensures Judge(s, r) == Ok(None) <==> Stale(s, r)
        {
          JudgeStale(s, clock, r);
        }
      }
    }
    if PlanFor(s, want).Some? {
      var p := PlanFor(s, want).value;
      RewriteFields(s, clock, p.bytes, p.valid, []);
    }
  }

  /** Some record of the key is judged valid, with the value. */
  ghost predicate JudgedAs(s: State, rs: seq<Record>, k: Key, v: Value)
  {
    exists r | r in rs :: r.key == k && Judge(s, r) == Ok(Some(v))
  }

  /** The valid entries of a chunk are those of its records that are judged valid. */
  lemma {:induction false} JudgeChunk(s: State, rs: seq<Record>, k: Key)
    requires JudgeAll(s, rs).Ok?
    ensures forall r | r in rs :: Judge(s, r).Ok?
    ensures forall v :: (k, v) in JudgeAll(s, rs).value <==> JudgedAs(s, rs, k, v)
  {
    hide Judge;
    if rs != [] {
      var n := |rs| - 1;
      JudgeChunk(s, rs[..n], k);
      assert rs == rs[..n] + [rs[n]];
      var vs := JudgeAll(s, rs[..n]).value;
      forall v
        ensures (k, v) in JudgeAll(s, rs).value <==> (k, v) in vs || (rs[n].key == k && Judge(s, rs[n]) == Ok(Some(v)))
      {
      }
    }
  }

  /** The collector rewrites the key: a record of it in the chunk is not older than the version seen, and that
      is live. */
  ghost predicate Rewrites(s: State, want: nat, k: Key)
  {
    PlanFor(s, want).Some? && Live(Seen(s, k)) &&
    exists r | r in PlanFor(s, want).value.chunk :: r.key == k && r.time >= Seen(s, k).value.time
  }

  /** It then rewrites the value of the version seen, once or more; otherwise it does not rewrite the key. */
  lemma PlanKey(s: State, clock: nat -> nat, now: nat, want: nat, k: Key)
    requires Inv(s, clock) && LogTimed(s.log, now, k) && Sound(s, now, k) && PlanFor(s, want).Some?
    ensures var vs := PlanFor(s, want).value.valid;
            if Rewrites(s, want, k) then
              ValueSeen(s, k).Some? && ValueSeen(s, k).value != MARKER && (k, ValueSeen(s, k).value) in vs &&
              forall v | (k, v) in vs :: v == ValueSeen(s, k).value
            else forall v :: (k, v) !in vs
  {
    hide Inv, LogTimed, Sound, Judge, Seen, ValueSeen, PlanFor;
    var p := PlanFor(s, want).value;
    PlanJudged(s, want);
    JudgeChunk(s, p.chunk, k);
    forall r | r in p.chunk && r.key == k
      ensures var x := Seen(s, k);
              Judge(s, r) == Ok(if Live(x) && r.time >= x.value.time then ValueSeen(s, k) else None) &&
              (Live(x) ==> ValueSeen(s, k).Some? && ValueSeen(s, k).value != MARKER)
    {
      JudgeKey(s, clock, now, r);
    }
  }

  lemma PlanJudged(s: State, want: nat)
    requires PlanFor(s, want).Some?
    ensures JudgeAll(s, PlanFor(s, want).value.chunk) == Ok(PlanFor(s, want).value.valid) && s.gc == []
  {
    hide ParseChunk, JudgeAll, File;
  }

  // ---------------------------------------------------------------------
  // The rewritten log and its entries

  lemma {:induction false} LastConcat(log: seq<Record>, more: seq<Record>, k: Key)
    ensures Last(log + more, k) == if Last(more, k).Some? then Some(|log| + Last(more, k).value) else Last(log, k)
  {
    if more == [] {
      assert log + more == log;
    } else {
      var n := |more| - 1;
      LastConcat(log, more[..n], k);
      assert (log + more)[..|log| + n] == log + more[..n];
    }
  }

  /** The last of the entries with the key. */
  function LastOf(es: seq<Entry>, k: Key): (r: Option<Entry>)
  {
    if es == [] then None
    else if es[|es| - 1].key == k then Some(es[|es| - 1])
    else LastOf(es[..|es| - 1], k)
  }

  lemma {:induction false} LastOfAt(es: seq<Entry>, rs: seq<Record>, k: Key)
    requires |es| == |rs| && forall j | 0 <= j < |es| :: es[j].key == rs[j].key
    ensures LastOf(es, k) == if Last(rs, k).Some? then Some(es[Last(rs, k).value]) else None
  {
    if es != [] {
      LastOfAt(es[..|es| - 1], rs[..|es| - 1], k);
    }
  }

  /** Each insertion replaces: the last entry of the key is found, or what was there. */
  lemma {:induction false} EachFinds(t: seq<Entry>, es: seq<Entry>, k: Key)
    requires Sorted(t)
    ensures Sorted(InsertEach(t, es))
    ensures Find(InsertEach(t, es), k) == if LastOf(es, k).Some? then LastOf(es, k) else Find(t, k)
  {
    hide Sorted, InsertSorted, Find;
    if es != [] {
      var n := |es| - 1;
      EachFinds(t, es[..n], k);
      InsertKeepsSorted(InsertEach(t, es[..n]), es[n]);
      InsertFinds(InsertEach(t, es[..n]), es[n], k);
    }
  }

  lemma {:induction false} EachMembers(t: seq<Entry>, es: seq<Entry>)
    ensures forall e | e in InsertEach(t, es) :: e in t || e in es
  {
    hide InsertSorted;
    if es != [] {
      var n := |es| - 1;
      EachMembers(t, es[..n]);
      InsertMembers(InsertEach(t, es[..n]), es[n]);
    }
  }

  lemma EachNonEmpty(t: seq<Entry>, es: seq<Entry>)
    requires es != []
    ensures InsertEach(t, es) != []
  {
    assert InsertSorted(InsertEach(t, es[..|es| - 1]), es[|es| - 1]) != [];
  }

  // ---------------------------------------------------------------------
  // Where the new entries go

  /** The entry is found where it was put, and everything else as before. */
  predicate PutWhere(before: Option<Entry>, after: Option<Entry>, g: Option<Entry>)
  {
    after == before || (g.Some? && after == g)
  }

  /** `g`, if there is one, is the new version of the key: it waits to be handed over, is found in the
      collector's own table, and nothing else is new. */
  ghost predicate Updated(s: State, s': State, k: Key, g: Option<Entry>)
  {
    Find(s'.gc, k) == g && PutWhere(Find(s.active.entries, k), Find(s'.active.entries, k), g) &&
    |s'.sealed| == |s.sealed| &&
    (forall i | 0 <= i < |s.sealed| :: PutWhere(Find(s.sealed[i], k), Find(s'.sealed[i], k), g)) &&
    s'.tables == s.tables && PutWhere(Find(Held(s), k), Find(Held(s'), k), g) &&
    s'.hole == s.hole && s'.tail == s.tail && s'.saved == s.saved &&
    (g.Some? ==> Find(OwnTable(s'), k) == g) && s'.active.recent == s.active.recent
  }

  lemma PutUpdates(s: State, s0: State, clock: nat -> nat, es: seq<Entry>, k: Key)
    requires Inv(s, clock) && s.gc == [] && s0 == s.(log := s0.log, pending := s0.pending, tick := s0.tick)
    ensures Updated(s, PutEach(s0, es), k, LastOf(es, k)) && TiersOk(PutEach(s0, es))
    ensures PutEach(s0, es).log == s0.log && PutEach(s0, es).pending == s0.pending && PutEach(s0, es).tick == s0.tick
  {
    hide Sorted, InsertEach, Find, LastOf, Boundary, RecordAt, AllWellFormed;
    EachFinds(s.gc, es, k);
    FindNone(k);
    EachFinds(OwnTable(s), es, k);
  }

  lemma {:induction false} ValidFit(s: State, rs: seq<Record>)
    requires AllWellFormed(rs) && JudgeAll(s, rs).Ok?
    ensures forall p | 0 <= p < |JudgeAll(s, rs).value| ::
              0 < |JudgeAll(s, rs).value[p].0| < U32_LIMIT && 0 < |JudgeAll(s, rs).value[p].1| < U32_LIMIT
  {
    hide ReadRecord, File, Seen;
    if rs != [] {
      var n := |rs| - 1;
      ValidFit(s, rs[..n]);
      var x := Seen(s, rs[n].key);
      if x.Some? {
        ReadValueFits(File(s), x.value.offset);
      }
    }
  }

  lemma AppendedTimes(s: State, clock: nat -> nat, n: nat, vs: seq<(Key, Value)>, j: nat)
    requires Ticking(clock) && j <= |vs|
    ensures var r := Appended(s, clock, n, vs)[j];
            clock(s.tick) <= r.time == clock(s.tick + j) < clock(s.tick + 2 * (|vs| + 1)) && !r.tomb
    ensures j > 0 ==> Appended(s, clock, n, vs)[j] == Record(vs[j - 1].0, vs[j - 1].1, clock(s.tick + j), false)
    ensures j == 0 ==> Appended(s, clock, n, vs)[j].key == TAIL_KEY
  {
  }

  lemma AppendedFit(s: State, clock: nat -> nat, p: Plan, c: nat, d: nat)
    requires AllWellFormed(s.log) && Ticking(clock) && c <= d <= |s.log| && JudgeAll(s, s.log[c..d]) == Ok(p.valid)
    requires clock(s.tick + 2 * (|p.valid| + 1)) <= U64_LIMIT
    ensures AllWellFormed(s.log + Appended(s, clock, p.bytes, p.valid))
  {
    hide JudgeAll, ToLe, Appended;
    var recs := Appended(s, clock, p.bytes, p.valid);
    ValidFit(s, s.log[c..d]);
    forall j | 0 <= j < |recs|
      ensures WellFormed(recs[j])
    {
      AppendedTimes(s, clock, p.bytes, p.valid, j);
      if j == 0 {
        TailFits(s, clock, p.bytes, p.valid);
      }
    }
  }

  lemma EntriesAreRecords(s: State, clock: nat -> nat, recs: seq<Record>, g: Entry)
    requires g in InsertEach([], NewEntries(s, clock, recs))
    ensures !g.tomb && RecordAt(s.log + recs, g.offset)
  {
    hide OffsetOf, InsertEach;
    var es := NewEntries(s, clock, recs);
    EachMembers([], es);
    var j :| 0 <= j < |es| && es[j] == g;
    assert OffsetOf(s.log + recs, |s.log| + j) == g.offset;
  }

  lemma RewriteKeepsInv(s: State, clock: nat -> nat, p: Plan, c: nat, d: nat)
    requires Inv(s, clock) && Ticking(clock) && s.gc == [] && ChunkAt(s, p, c, d)
    requires JudgeAll(s, s.log[c..d]) == Ok(p.valid)
    requires clock(s.tick + 2 * (|p.valid| + 1)) <= U64_LIMIT
    ensures Inv(Rewrite(s, clock, p.bytes, p.valid), clock)
    ensures Rewrite(s, clock, p.bytes, p.valid).gc != []
  {
    hide OffsetOf, Sorted, JudgeAll, InsertEach, NewEntries, Appended, AllWellFormed, TiersOk, PutEach, Updated;
    var s' := Rewrite(s, clock, p.bytes, p.valid);
    var recs := Appended(s, clock, p.bytes, p.valid);
    RewriteFields(s, clock, p.bytes, p.valid, []);
    AppendedFit(s, clock, p, c, d);
    BoundaryStable(s.log, recs, s.hole);
    BoundaryStable(s.log, recs, s.active.recent);
    assert Boundary(s.log, s.tail + p.bytes);
    BoundaryStable(s.log, recs, s.tail + p.bytes);
    SavedStable(s, recs);
    forall g | g in s'.gc
      ensures !g.tomb && RecordAt(s'.log, g.offset)
    {
      EntriesAreRecords(s, clock, recs, g);
    }
  }

  lemma RewriteFields(s: State, clock: nat -> nat, n: nat, vs: seq<(Key, Value)>, k: Key)
    requires Inv(s, clock) && s.gc == []
    ensures var recs, s' := Appended(s, clock, n, vs), Rewrite(s, clock, n, vs);
            s'.log == s.log + recs && s'.pending == n && s'.tick == s.tick + 2 * |recs| && TiersOk(s') &&
            s'.gc == InsertEach([], NewEntries(s, clock, recs)) != [] && s'.hole == s.hole && s'.tail == s.tail &&
            s'.saved == s.saved && s'.active.recent == s.active.recent &&
            Updated(s, s', k, LastOf(NewEntries(s, clock, recs), k))
  {
    hide Inv, InsertEach, NewEntries, Appended, TiersOk, LastOf;
    var recs := Appended(s, clock, n, vs);
    var es := NewEntries(s, clock, recs);
    EachNonEmpty([], es);
    PutUpdates(s, s.(log := s.log + recs, pending := n, tick := s.tick + 2 * |recs|), clock, es, k);
  }

  lemma SavedStable(s: State, recs: seq<Record>)
    requires forall i | 0 <= i < |s.saved| :: RecordAt(s.log, s.saved[i].0) && Boundary(s.log, s.saved[i].1)
    ensures forall i | 0 <= i < |s.saved| ::
              RecordAt(s.log + recs, s.saved[i].0) && Boundary(s.log + recs, s.saved[i].1)
  {
    hide RecordAt, Boundary;
    forall i | 0 <= i < |s.saved|
      ensures RecordAt(s.log + recs, s.saved[i].0) && Boundary(s.log + recs, s.saved[i].1)
    {
      BoundaryStable(s.log, recs, s.saved[i].0);
      BoundaryStable(s.log, recs, s.saved[i].1);
    }
  }

  lemma TailFits(s: State, clock: nat -> nat, n: nat, vs: seq<(Key, Value)>)
    ensures |Appended(s, clock, n, vs)[0].key| == 4 && |Appended(s, clock, n, vs)[0].value| == 8
  {
  }

  // ---------------------------------------------------------------------
  // The collector and one key

  /** The collector drops the last record of a live key: it is in the chunk and the key is not rewritten. */
  ghost predicate Loses(s: State, want: nat, k: Key)
  {
    PlanFor(s, want).Some? && !Rewrites(s, want, k) &&
    var l := Last(s.log, k);
    l.Some? && !s.log[l.value].tomb && OffsetOf(s.log, l.value) < s.tail + PlanFor(s, want).value.bytes
  }

  /** The collector brings an old version of the key back: it rewrites it, but not with its value. */
  ghost predicate Reverts(s: State, want: nat, k: Key)
  {
    Rewrites(s, want, k) && ValueSeen(s, k) != Current(s.log, k)
  }

  /** The records of the key that are appended: some with the value seen if it is rewritten, else none. */
  lemma RewrittenLast(s: State, clock: nat -> nat, now: nat, want: nat, k: Key)
    requires Inv(s, clock) && KeyInv(s, now, k) && UserKey(k) && Ticking(clock) && PlanFor(s, want).Some?
    ensures var p := PlanFor(s, want).value;
            var recs := Appended(s, clock, p.bytes, p.valid);
            (Last(recs, k).Some? <==> Rewrites(s, want, k)) &&
            Last(s.log + recs, k)
            == (if Last(recs, k).Some? then Some(|s.log| + Last(recs, k).value) else Last(s.log, k)) &&
            (Last(recs, k).Some? ==> ValueSeen(s, k).Some? && ValueSeen(s, k).value != MARKER) &&
            forall j | 0 <= j < |recs| && recs[j].key == k ::
              ValueSeen(s, k).Some? && recs[j].value == ValueSeen(s, k).value && !recs[j].tomb
  {
    hide Inv, Appended, PlanFor, Rewrites, ValueSeen, Sound, LogTimed;
    var p := PlanFor(s, want).value;
    var recs := Appended(s, clock, p.bytes, p.valid);
    PlanKey(s, clock, now, want, k);
    LastConcat(s.log, recs, k);
    forall j | 0 <= j < |recs|
      ensures j == 0 ==> recs[j].key == TAIL_KEY
      ensures j > 0 ==> (recs[j].key, recs[j].value) == p.valid[j - 1] && p.valid[j - 1] in p.valid
      ensures !recs[j].tomb
    {
      AppendedTimes(s, clock, p.bytes, p.valid, j);
    }
    if Rewrites(s, want, k) {
      var q :| 0 <= q < |p.valid| && p.valid[q] == (k, ValueSeen(s, k).value);
      assert recs[q + 1].key == k;
    }
  }

  /** What the log says about a key after a collection: the value seen, if the key is rewritten, and otherwise
      what it said before. */
  lemma CollectKeepsCurrent(s: State, clock: nat -> nat, now: nat, want: nat, k: Key)
    requires Inv(s, clock) && KeyInv(s, now, k) && UserKey(k) && Ticking(clock)
    ensures Current(Collect(s, clock, want).log, k)
         == if Rewrites(s, want, k) then ValueSeen(s, k) else Current(s.log, k)
  {
    hide Inv, KeyInv, PlanFor, Appended, JudgeAll, Rewrites, ValueSeen;
    if PlanFor(s, want).Some? {
      var p := PlanFor(s, want).value;
      var recs := Appended(s, clock, p.bytes, p.valid);
      RewrittenLast(s, clock, now, want, k);
      PlanJudged(s, want);
      RewriteFields(s, clock, p.bytes, p.valid, k);
      if Last(recs, k).Some? {
        assert (s.log + recs)[|s.log| + Last(recs, k).value] == recs[Last(recs, k).value];
      }
    } else {
      NoPlan(s, want, k);
    }
  }

  lemma NoPlan(s: State, want: nat, k: Key)
    requires PlanFor(s, want).None?
    ensures !Rewrites(s, want, k) && !Loses(s, want, k)
  {
  }

  lemma ManyEntry(log: seq<Record>, now: nat, more: seq<Record>, now': nat, x: Option<Entry>)
    requires EntryOk(log, now, x) && now <= now' && forall j | 0 <= j < |more| :: now <= more[j].time
    ensures EntryOk(log + more, now', x)
  {
    if x.Some? {
      VersionAppend(log, more, x.value);
    }
  }

  lemma ManyAll(log: seq<Record>, now: nat, more: seq<Record>, now': nat, ts: seq<seq<Entry>>, k: Key)
    requires AllOk(log, now, ts, k) && now <= now' && forall j | 0 <= j < |more| :: now <= more[j].time
    ensures AllOk(log + more, now', ts, k)
  {
    hide Version;
    forall e: Entry | e.key == k && Version(ts, e)
      ensures VersionOk(log + more, e) && e.time < now'
    {
      VersionAppend(log, more, e);
    }
  }

  lemma ManyTimed(log: seq<Record>, now: nat, recs: seq<Record>, now': nat, k: Key)
    requires LogTimed(log, now, k) && 0 < now && forall j | 0 <= j < |recs| :: now <= recs[j].time < now'
    requires forall j | 0 <= j < |recs| && recs[j].key == k :: recs[j].tomb <==> recs[j].value == MARKER
    requires forall i, j | 0 <= i < j < |recs| :: recs[i].time < recs[j].time
    requires now <= now'
    ensures LogTimed(log + recs, now', k)
  {
    var all := log + recs;
    forall i | 0 <= i < |all|
      ensures all[i] == if i < |log| then log[i] else recs[i - |log|]
    {
    }
  }

  lemma AppendedInOrder(s: State, clock: nat -> nat, n: nat, vs: seq<(Key, Value)>)
    requires Ticking(clock)
    ensures var recs := Appended(s, clock, n, vs);
            (forall j | 0 <= j < |recs| ::
               clock(s.tick) <= recs[j].time == clock(s.tick + j) < clock(s.tick + 2 * |recs|) && !recs[j].tomb) &&
            (forall i, j | 0 <= i < j < |recs| :: recs[i].time < recs[j].time)
  {
    hide Appended;
    var recs := Appended(s, clock, n, vs);
    forall j | 0 <= j < |recs|
      ensures recs[j].time == clock(s.tick + j) && clock(s.tick) <= recs[j].time < clock(s.tick + 2 * |recs|) &&
              !recs[j].tomb
    {
      AppendedTimes(s, clock, n, vs, j);
    }
  }

  lemma NewEntryAt(s: State, clock: nat -> nat, recs: seq<Record>, q: nat)
    requires Ticking(clock) && q < |recs| && recs[q].time == clock(s.tick + q)
    ensures var e := NewEntries(s, clock, recs)[q];
            e.key == recs[q].key && e.offset == OffsetOf(s.log + recs, |s.log| + q) && !e.tomb &&
            recs[q].time < e.time < clock(s.tick + 2 * |recs|)
  {
    hide OffsetOf;
  }

  /** An entry for the last record of its key, and not earlier than it, is a version. */
  lemma LastVersion(log: seq<Record>, e: Entry, l: nat)
    requires Last(log, e.key) == Some(l) && e.offset == OffsetOf(log, l) && log[l].tomb == e.tomb
    requires 0 < log[l].time <= e.time
    ensures VersionOk(log, e)
  {
    hide OffsetOf;
    assert Backed(log, e, l);
  }

  /** The new version stands for the last record of the key, and carries a later time than it. */
  lemma NewVersion(s: State, clock: nat -> nat, recs: seq<Record>, k: Key)
    requires Ticking(clock) && forall j | 0 <= j < |recs| :: 0 < recs[j].time == clock(s.tick + j) && !recs[j].tomb
    ensures var g := LastOf(NewEntries(s, clock, recs), k);
            if Last(recs, k).None? then g.None? else
              var l := |s.log| + Last(recs, k).value;
              g.Some? && g.value.key == k && g.value.offset == OffsetOf(s.log + recs, l) && !g.value.tomb &&
              VersionOk(s.log + recs, g.value) && recs[Last(recs, k).value].time < g.value.time &&
              g.value.time < clock(s.tick + 2 * |recs|)
  {
    hide OffsetOf, LastOf, Last, NewEntries, VersionOk, Ticking;
    var es := NewEntries(s, clock, recs);
    EntryKeys(s, clock, recs);
    LastOfAt(es, recs, k);
    if Last(recs, k).Some? {
      var q := Last(recs, k).value;
      NewEntryAt(s, clock, recs, q);
      LastConcat(s.log, recs, k);
      assert (s.log + recs)[|s.log| + q] == recs[q];
      LastVersion(s.log + recs, es[q], |s.log| + q);
    }
  }

  /** Collecting keeps the invariant of a key, unless it drops the key's last record. */
  lemma CollectKeepsKey(s: State, clock: nat -> nat, want: nat, k: Key)
    requires Inv(s, clock) && KeyInv(s, clock(s.tick), k) && UserKey(k) && Ticking(clock) && !Loses(s, want, k)
    ensures KeyInv(Collect(s, clock, want), clock(Collect(s, clock, want).tick), k)
  {
    hide *;
    if PlanFor(s, want).Some? {
      CollectedTimed(s, clock, want, k);
      if Rewrites(s, want, k) {
        CollectedRewritten(s, clock, want, k);
      } else {
        CollectedUntouched(s, clock, want, k);
      }
      KeyFrom(Collect(s, clock, want), clock(Collect(s, clock, want).tick), k);
    } else {
      NothingCollected(s, clock, want);
    }
  }

  lemma NothingCollected(s: State, clock: nat -> nat, want: nat)
    requires PlanFor(s, want).None?
    ensures Collect(s, clock, want) == s
  {
  }

  lemma KeyFrom(s: State, now: nat, k: Key)
    requires LogTimed(s.log, now, k) && Sound(s, now, k) && Layered(s, k) && UpToDate(s, k) && Covered(s, k)
    requires Unpunched(s, k)
    ensures KeyInv(s, now, k)
  {
  }

  lemma CollectedTimed(s: State, clock: nat -> nat, want: nat, k: Key)
    requires Inv(s, clock) && KeyInv(s, clock(s.tick), k) && UserKey(k) && Ticking(clock) && PlanFor(s, want).Some?
    ensures LogTimed(Collect(s, clock, want).log, clock(Collect(s, clock, want).tick), k)
  {
    hide Inv, PlanFor, Appended, OffsetOf, LogTimed, Rewrites, ValueSeen, Sound, Layered, UpToDate, Unpunched, Covered,
         Last, Rewrite;
    var p := PlanFor(s, want).value;
    var recs := Appended(s, clock, p.bytes, p.valid);
    PlanJudged(s, want);
    RewriteFields(s, clock, p.bytes, p.valid, k);
    AppendedInOrder(s, clock, p.bytes, p.valid);
    RewrittenLast(s, clock, clock(s.tick), want, k);
    forall j | 0 <= j < |recs| && recs[j].key == k
      ensures recs[j].value != MARKER
    {
      assert Last(recs, k).Some?;
    }
    ManyTimed(s.log, clock(s.tick), recs, clock(s.tick + 2 * |recs|), k);
  }

  lemma RewrittenPlace(s: State, clock: nat -> nat, want: nat, k: Key)
    requires Inv(s, clock) && KeyInv(s, clock(s.tick), k) && UserKey(k) && Ticking(clock) && Rewrites(s, want, k)
    ensures var p := PlanFor(s, want).value;
            var recs := Appended(s, clock, p.bytes, p.valid);
            var l := Last(recs, k);
            s.gc == [] && l.Some? && Last(s.log + recs, k) == Some(|s.log| + l.value) &&
            (s.log + recs)[|s.log| + l.value] == recs[l.value] && Collect(s, clock, want).log == s.log + recs
  {
    hide Inv, KeyInv, PlanFor, Appended, Last, Seen, ValueSeen, Ticking, Rewrite;
    var p := PlanFor(s, want).value;
    PlanJudged(s, want);
    RewrittenLast(s, clock, clock(s.tick), want, k);
    RewriteFields(s, clock, p.bytes, p.valid, k);
  }

  /** The rewritten key has a new version, for the last record of it and with a later time. */
  lemma RewrittenBy(s: State, clock: nat -> nat, want: nat, k: Key) returns (recs: seq<Record>, g: Entry)
    requires Inv(s, clock) && KeyInv(s, clock(s.tick), k) && UserKey(k) && Ticking(clock) && Rewrites(s, want, k)
    ensures var s' := Collect(s, clock, want);
            s'.log == s.log + recs && Updated(s, s', k, Some(g)) && s'.pending == PlanFor(s, want).value.bytes &&
            clock(s.tick) <= clock(s'.tick) && EntryOk(s'.log, clock(s'.tick), Some(g)) && g.key == k && !g.tomb &&
            Last(s'.log, k).Some? && Last(s'.log, k).value >= |s.log| && !s'.log[Last(s'.log, k).value].tomb &&
            g.offset == OffsetOf(s'.log, Last(s'.log, k).value) && s'.log[Last(s'.log, k).value].time < g.time
    ensures forall j | 0 <= j < |recs| :: clock(s.tick) <= recs[j].time
  {
    hide Inv, KeyInv, PlanFor, Appended, OffsetOf, NewEntries, VersionOk, LastOf, Rewrite, Updated, Last, Seen,
         ValueSeen, Ticking, Rewrites;
    RewrittenPlace(s, clock, want, k);
    var p := PlanFor(s, want).value;
    recs := Appended(s, clock, p.bytes, p.valid);
    AppendedAt(s, clock, p.bytes, p.valid);
    RewriteFields(s, clock, p.bytes, p.valid, k);
    NewVersion(s, clock, recs, k);
    g := LastOf(NewEntries(s, clock, recs), k).value;
  }

  lemma CollectedRewritten(s: State, clock: nat -> nat, want: nat, k: Key)
    requires Inv(s, clock) && KeyInv(s, clock(s.tick), k) && UserKey(k) && Ticking(clock) && Rewrites(s, want, k)
    ensures var s' := Collect(s, clock, want);
            Sound(s', clock(s'.tick), k) && Layered(s', k) && UpToDate(s', k) && Covered(s', k) && Unpunched(s', k)
  {
    hide Inv, PlanFor, OffsetOf, VersionOk, LogTimed, Collect, Sound, Layered, UpToDate, Unpunched, Covered, Last, Seen,
         Ticking, EntryOk, Find;
    var s' := Collect(s, clock, want);
    var recs, g := RewrittenBy(s, clock, want, k);
    RewrittenKey(s, s', clock(s.tick), recs, clock(s'.tick), k, g);
    OffsetMonotone(s'.log, |s.log|, Last(s'.log, k).value);
    ChunkWithin(s, clock, want, recs);
    RewrittenUnpunched(s', k);
  }

  lemma AppendedAt(s: State, clock: nat -> nat, n: nat, vs: seq<(Key, Value)>)
    requires Ticking(clock)
    ensures var recs := Appended(s, clock, n, vs);
            clock(s.tick) <= clock(s.tick + 2 * |recs|) &&
            forall j | 0 <= j < |recs| ::
              0 < recs[j].time == clock(s.tick + j) && clock(s.tick) <= recs[j].time && !recs[j].tomb
  {
    hide Appended;
    AppendedInOrder(s, clock, n, vs);
  }

  lemma CollectedUntouched(s: State, clock: nat -> nat, want: nat, k: Key)
    requires Inv(s, clock) && KeyInv(s, clock(s.tick), k) && UserKey(k) && Ticking(clock) && PlanFor(s, want).Some?
    requires !Rewrites(s, want, k) && !Loses(s, want, k)
    ensures var s' := Collect(s, clock, want);
            Sound(s', clock(s'.tick), k) && Layered(s', k) && UpToDate(s', k) && Covered(s', k) && Unpunched(s', k)
  {
    hide Inv, PlanFor, Appended, OffsetOf, NewEntries, VersionOk, LastOf, LogTimed, Rewrite, Sound, Layered, UpToDate,
         Unpunched, Covered, Updated, Last, Rewrites, Loses, ValueSeen;
    var p := PlanFor(s, want).value;
    var recs := Appended(s, clock, p.bytes, p.valid);
    var s' := Rewrite(s, clock, p.bytes, p.valid);
    PlanJudged(s, want);
    AppendedInOrder(s, clock, p.bytes, p.valid);
    RewrittenLast(s, clock, clock(s.tick), want, k);
    RewriteFields(s, clock, p.bytes, p.valid, k);
    NewVersion(s, clock, recs, k);
    UntouchedKey(s, s', clock(s.tick), recs, clock(s'.tick), k);
    UntouchedUnpunched(s, s', want, p, recs, k);
  }

  lemma ChunkWithin(s: State, clock: nat -> nat, want: nat, recs: seq<Record>)
    requires Inv(s, clock) && PlanFor(s, want).Some?
    ensures s.hole <= s.tail + PlanFor(s, want).value.bytes <= OffsetOf(s.log + recs, |s.log|)
  {
    hide Inv, PlanFor, OffsetOf;
    var c, d := PlanChunk(s, clock, want);
    OffsetMonotone(s.log, d, |s.log|);
    OffsetStable(s.log, recs, |s.log|);
  }

  lemma RewrittenUnpunched(s: State, k: Key)
    requires Last(s.log, k).Some? && s.hole <= s.tail + s.pending <= OffsetOf(s.log, Last(s.log, k).value)
    ensures Unpunched(s, k)
  {
  }

  lemma UntouchedUnpunched(s: State, s': State, want: nat, p: Plan, recs: seq<Record>, k: Key)
    requires Unpunched(s, k) && PlanFor(s, want) == Some(p) && !Loses(s, want, k) && !Rewrites(s, want, k)
    requires s'.log == s.log + recs && Last(s'.log, k) == Last(s.log, k) && s'.hole == s.hole && s'.tail == s.tail
    requires s'.pending == p.bytes
    ensures Unpunched(s', k)
  {
    hide PlanFor, OffsetOf, Rewrites;
    if Last(s.log, k).Some? {
      OffsetStable(s.log, recs, Last(s.log, k).value);
    }
  }

  lemma PutVersions(ts: seq<seq<Entry>>, ts': seq<seq<Entry>>, k: Key, g: Option<Entry>)
    requires |ts'| == |ts| && forall i | 0 <= i < |ts| :: PutWhere(Find(ts[i], k), Find(ts'[i], k), g)
    ensures forall e: Entry | e.key == k && Version(ts', e) :: Version(ts, e) || g == Some(e)
  {
    hide Find;
  }

  /** The key is rewritten: a read finds its new version, which is the latest of all. */
  lemma RewrittenKey(s: State, s': State, now: nat, recs: seq<Record>, now': nat, k: Key, g: Entry)
    requires Sound(s, now, k) && Covered(s, k) && s'.log == s.log + recs && Updated(s, s', k, Some(g))
    requires now <= now' && forall j | 0 <= j < |recs| :: now <= recs[j].time
    requires EntryOk(s'.log, now', Some(g)) && g.key == k && !g.tomb && Last(s'.log, k).Some?
    requires Last(s'.log, k).value >= |s.log| && g.offset == OffsetOf(s'.log, Last(s'.log, k).value)
    requires !s'.log[Last(s'.log, k).value].tomb
    ensures Sound(s', now', k) && Layered(s', k) && UpToDate(s', k) && Covered(s', k)
  {
    hide OffsetOf, Find, Newest, VersionOk, Version, Covered, AtMost, Tiered, Held, OwnTable;
    ManyEntry(s.log, now, recs, now', Find(s.active.entries, k));
    ManyEntry(s.log, now, recs, now', Find(Held(s), k));
    ManyAll(s.log, now, recs, now', s.sealed, k);
    ManyAll(s.log, now, recs, now', s.tables, k);
    PutVersions(s.sealed, s'.sealed, k, Some(g));
    LatestIsTop(s'.log, now', s'.sealed, g);
    LatestTables(s', now', g);
    CoveredAppend(s, s', recs, k);
  }

  /** The key is not rewritten: a read finds what it found before. */
  lemma UntouchedKey(s: State, s': State, now: nat, recs: seq<Record>, now': nat, k: Key)
    requires Sound(s, now, k) && Layered(s, k) && UpToDate(s, k) && Covered(s, k) && s.gc == []
    requires s'.log == s.log + recs && Updated(s, s', k, None) && Last(s'.log, k) == Last(s.log, k)
    requires now <= now' && forall j | 0 <= j < |recs| :: now <= recs[j].time
    ensures Sound(s', now', k) && Layered(s', k) && UpToDate(s', k) && Covered(s', k)
  {
    hide OffsetOf, Find, Newest, VersionOk, Version, Covered, Answers, Held, OwnTable;
    ManyEntry(s.log, now, recs, now', Find(s.active.entries, k));
    ManyEntry(s.log, now, recs, now', Find(Held(s), k));
    ManyAll(s.log, now, recs, now', s.sealed, k);
    ManyAll(s.log, now, recs, now', s.tables, k);
    NewestSame(s.sealed, s'.sealed, k);
    FindNone(k);
    AnswersAppend(s.log, recs, Select(s, k), k);
    assert Select(s', k) == Select(s, k);
    CoveredAppend(s, s', recs, k);
  }

  // ---------------------------------------------------------------------
  // A whole cycle

  lemma CollectKeepsInv(s: State, clock: nat -> nat, want: nat)
    requires Inv(s, clock) && Ticking(clock) && clock(Collect(s, clock, want).tick) <= U64_LIMIT
    ensures Inv(Collect(s, clock, want), clock)
    ensures PlanFor(s, want).Some? ==> Collect(s, clock, want).gc != []
  {
    hide Inv, PlanFor, Appended, JudgeAll, ChunkAt, Rewrite;
    if PlanFor(s, want).Some? {
      var c, d := PlanChunk(s, clock, want);
      var p := PlanFor(s, want).value;
      RewriteFields(s, clock, p.bytes, p.valid, []);
      RewriteKeepsInv(s, clock, p, c, d);
    }
  }

  /** When the last record of the key is dropped, a read still goes to it after the hand-over. */
  lemma LostView(s: State, clock: nat -> nat, now: nat, want: nat, k: Key)
    requires Inv(s, clock) && KeyInv(s, now, k) && UserKey(k) && Ticking(clock) && Loses(s, want, k)
    requires Inv(Collect(s, clock, want), clock)
    ensures var s', l := Sync(Collect(s, clock, want)), Last(s.log, k).value;
            s'.gc == [] && Tiered(s', k) == Tiered(s, k) && Tiered(s, k).Some? && !Tiered(s, k).value.tomb &&
            Tiered(s, k).value.offset == OffsetOf(s.log, l)
  {
    hide PlanFor, Appended, OffsetOf, InsertEach, NewEntries, Find, Newest, VersionOk, Version, LastOf, PutEach,
         Covered, Layered, LogTimed, InsertAll, Sorted, Boundary, RecordAt, AllWellFormed, Rewrites, Held, OwnTable;
    var p := PlanFor(s, want).value;
    var recs := Appended(s, clock, p.bytes, p.valid);
    var m := Rewrite(s, clock, p.bytes, p.valid);
    var l := Last(s.log, k).value;
    PlanJudged(s, want);
    FindNone(k);
    RewrittenLast(s, clock, now, want, k);
    RewriteFields(s, clock, p.bytes, p.valid, k);
    EntryKeys(s, clock, recs);
    LastOfAt(NewEntries(s, clock, recs), recs, k);
    InsertAllFinds(m.active, m.gc, k);
    NewestSame(s.sealed, m.sealed, k);
    SelectOk(s, now, k);
    VersionAtMostLast(s.log, Select(s, k).value);
    BackedTomb(s.log, Select(s, k).value, l);
  }

  lemma EntryKeys(s: State, clock: nat -> nat, recs: seq<Record>)
    ensures forall j | 0 <= j < |recs| :: NewEntries(s, clock, recs)[j].key == recs[j].key
  {
    hide OffsetOf;
  }

  /** A complete collection and its hand-over, exactly. A key that is rewritten reads as the value seen. Any
      other key reads as before if and only if its live last record is not in the chunk; if it is, the key
      cannot be read any more, because the read ends in the punched bytes. */
  lemma CycleIsInvisible(s: State, clock: nat -> nat, want: nat, k: Key)
    requires Inv(s, clock) && KeyInv(s, clock(s.tick), k) && UserKey(k) && Sized(k) && Ticking(clock)
    requires PlanFor(s, want).Some? && clock(Collect(s, clock, want).tick) <= U64_LIMIT
    ensures var s' := Sync(Collect(s, clock, want));
            (Get(s', k) == Get(s, k) <==> !Loses(s, want, k) && !Reverts(s, want, k)) &&
            (Rewrites(s, want, k) ==> Get(s', k) == Ok(ValueSeen(s, k))) &&
            (Loses(s, want, k) ==> Get(s', k) == Err(UnexpectedEof))
  {
    hide Inv, KeyInv, PlanFor, Collect, Loses, OffsetOf, Sync, Get, Current, Rewrites, ValueSeen;
    var m := Collect(s, clock, want);
    CollectKeepsInv(s, clock, want);
    SyncKeepsInv(m, clock);
    GetIsCurrent(s, clock, clock(s.tick), k);
    LosesOrRewrites(s, want, k);
    if !Loses(s, want, k) {
      CollectKeepsKey(s, clock, want, k);
      SyncKeepsKey(m, clock, clock(m.tick), k);
      SyncFields(m);
      GetIsCurrent(Sync(m), clock, clock(m.tick), k);
      CollectKeepsCurrent(s, clock, clock(s.tick), want, k);
    } else {
      LostRead(s, clock, want, k);
    }
  }

  lemma LosesOrRewrites(s: State, want: nat, k: Key)
    ensures !(Loses(s, want, k) && Rewrites(s, want, k))
  {
    hide PlanFor, Rewrites, OffsetOf;
  }

  lemma SyncFields(s: State)
    ensures Sync(s).log == s.log && Sync(s).gc == [] && Sync(s).tick == s.tick && Sync(s).hole == s.tail + s.pending
  {
    hide InsertAll;
  }

  lemma LostRead(s: State, clock: nat -> nat, want: nat, k: Key)
    requires Inv(s, clock) && KeyInv(s, clock(s.tick), k) && UserKey(k) && Sized(k) && Ticking(clock)
    requires Loses(s, want, k) && clock(Collect(s, clock, want).tick) <= U64_LIMIT
    ensures Get(Sync(Collect(s, clock, want)), k) == Err(UnexpectedEof)
    ensures Get(s, k).Ok?
  {
    hide Inv, KeyInv, PlanFor, Appended, Rewrite, Rewrites, OffsetOf, Sync, Find, ReadRecord, File, Current,
         Tiered, Last;
    var c, d := PlanChunk(s, clock, want);
    var p := PlanFor(s, want).value;
    CollectKeepsInv(s, clock, want);
    RewriteFields(s, clock, p.bytes, p.valid, k);
    var m := Rewrite(s, clock, p.bytes, p.valid);
    var s' := Sync(m);
    SyncKeepsInv(m, clock);
    SyncFields(m);
    LostView(s, clock, clock(s.tick), want, k);
    GetIsCurrent(s, clock, clock(s.tick), k);
    var l := Last(s.log, k).value;
    var recs := Appended(s, clock, p.bytes, p.valid);
    if l >= d {
      OffsetMonotone(s.log, d, l);
    }
    OffsetStable(s.log, recs, l);
    OffsetStable(s.log, recs, d);
    FileHolds(s', clock);
    HoleRead(File(s'), s'.log, s'.hole, l, d);
    FindNone(k);
  }

  // ---------------------------------------------------------------------
  // A collector that sees what a read sees

  /** The entry a read uses carries the time of its record: it was written by a put, or replayed. */
  ghost predicate Genuine(s: State, k: Key)
  {
    var l, x := Last(s.log, k), Tiered(s, k);
    l.Some? && x.Some? ==> x.value.time == s.log[l.value].time
  }

  /** The collector's table agrees with the active memtable on the key, or holds what a read uses. It does while
      the two are one; and, once its table was sealed or flushed, as long as neither has the key. */
  predicate InStep(s: State, k: Key)
  {
    var own := Find(OwnTable(s), k);
    own == Find(s.active.entries, k) || (own.Some? && own == Tiered(s, k))
  }

  /** A collector in step with the store never brings an old version back, and it drops a key exactly when the
      key's live last record is in the chunk and the entry for it carries another time. */
  lemma InStepCycle(s: State, clock: nat -> nat, now: nat, want: nat, k: Key)
    requires Inv(s, clock) && KeyInv(s, now, k) && InStep(s, k) && PlanFor(s, want).Some?
    ensures !Reverts(s, want, k)
    ensures Loses(s, want, k) <==>
            var l := Last(s.log, k);
            l.Some? && !s.log[l.value].tomb && OffsetOf(s.log, l.value) < s.tail + PlanFor(s, want).value.bytes &&
            !Genuine(s, k)
  {
    hide PlanFor, OffsetOf, Find, Newest, VersionOk, Sound, Covered, Layered, CurrentValue, Inv, LogTimed;
    var x, l := Seen(s, k), Last(s.log, k);
    PlanJudged(s, want);
    FindNone(k);
    assert x == Select(s, k) == Tiered(s, k);
    SelectOk(s, now, k);
    if Live(x) {
      VersionAtMostLast(s.log, x.value);
      BackedTime(s.log, x.value, l.value);
      SeenRead(s, clock, now, k, l.value);
      SharedRewrites(s, clock, now, want, k, l.value);
    } else {
      NotLiveLast(s.log, x, k);
    }
  }

  lemma BackedTime(log: seq<Record>, e: Entry, i: nat)
    requires Backed(log, e, i)
    ensures i < |log| && log[i].tomb == e.tomb && log[i].time <= e.time && log[i].key == e.key
  {
  }

  lemma SharedRewrites(s: State, clock: nat -> nat, now: nat, want: nat, k: Key, l: nat)
    requires Inv(s, clock) && LogTimed(s.log, now, k) && PlanFor(s, want).Some? && Live(Seen(s, k))
    requires Last(s.log, k) == Some(l) && s.hole <= OffsetOf(s.log, l) && s.log[l].time <= Seen(s, k).value.time
    ensures Rewrites(s, want, k) <==>
            OffsetOf(s.log, l) < s.tail + PlanFor(s, want).value.bytes && Seen(s, k).value.time == s.log[l].time
  {
    hide PlanFor, OffsetOf, Seen, Inv;
    var c, d := PlanChunk(s, clock, want);
    var chunk := PlanFor(s, want).value.chunk;
    if l < c {
      OffsetMonotone(s.log, l, c);
    } else if l < d {
      OffsetMonotone(s.log, l, d);
      assert chunk[l - c] == s.log[l];
    } else {
      OffsetMonotone(s.log, d, l);
    }
    forall r | r in chunk && r.key == k && r.time >= Seen(s, k).value.time
      ensures c <= l < d && r == s.log[l]
    {
      var j :| 0 <= j < |chunk| && chunk[j] == r;
      assert s.log[c + j] == r;
    }
  }

  /** Once the memtable it shares is flushed, the collector starts from an empty table of its own: what it puts there
      goes into no tier of the store. */
  lemma FlushCutsLink(s: State, i: nat, es: seq<Entry>)
    requires i < |s.sealed| && s.link == ToSealed(i) && s.sealed[i] != [] && SsTable.Fits(s.sealed[i])
    ensures var s1, s2 := Flush(s, i), PutEach(Flush(s, i), es);
            OwnTable(s1) == [] && OwnTable(s2) == InsertEach([], es) &&
            s2.active == s1.active && s2.sealed == s1.sealed && s2.tables == s1.tables
  {
    hide SsTable.Fits, SsTable.StoredAll, InsertEach;
  }

  // ---------------------------------------------------------------------
  // Two cycles

  /** What the collector rewrites, it next sees with a later time than every record of the key. */
  lemma RewrittenIsLater(s: State, clock: nat -> nat, want: nat, k: Key)
    requires Inv(s, clock) && KeyInv(s, clock(s.tick), k) && UserKey(k) && Ticking(clock) && Rewrites(s, want, k)
    requires clock(Collect(s, clock, want).tick) <= U64_LIMIT
    ensures var s1 := Sync(Collect(s, clock, want));
            Live(Seen(s1, k)) && Last(s1.log, k).Some? && !s1.log[Last(s1.log, k).value].tomb &&
            s1.log[Last(s1.log, k).value].time < Seen(s1, k).value.time
  {
    hide Inv, KeyInv, PlanFor, OffsetOf, Find, VersionOk, Last, Newest, Collect, Ticking, Seen, Updated, Sync, EntryOk;
    var m := Collect(s, clock, want);
    var recs, g := RewrittenBy(s, clock, want, k);
    CollectKeepsInv(s, clock, want);
    SyncFields(m);
    SeenAfter(s, m, clock, k, g);
  }

  lemma SeenAfter(s: State, m: State, clock: nat -> nat, k: Key, g: Entry)
    requires Inv(m, clock) && Updated(s, m, k, Some(g))
    ensures Seen(Sync(m), k) == Some(g)
  {
    hide Find, Newest, InsertAll, Inv, Held;
    TiersSorted(m, clock);
    InsertAllFinds(m.active, m.gc, k);
  }

  lemma TiersSorted(s: State, clock: nat -> nat)
    requires Inv(s, clock)
    ensures Sorted(s.active.entries) && Sorted(s.gc)
  {
  }

  /** When one cycle rewrites a key, with whatever it sees of it, and the chunk of the next reaches the new
      record, the key cannot be read any more, although it was never deleted. */
  lemma SecondCycleLoses(s: State, clock: nat -> nat, want1: nat, want2: nat, k: Key)
    requires Inv(s, clock) && KeyInv(s, clock(s.tick), k) && UserKey(k) && Sized(k) && Ticking(clock)
    requires Rewrites(s, want1, k) && clock(Collect(s, clock, want1).tick) <= U64_LIMIT
    requires var s1 := Sync(Collect(s, clock, want1));
             PlanFor(s1, want2).Some? && clock(Collect(s1, clock, want2).tick) <= U64_LIMIT &&
             Last(s1.log, k).Some? && OffsetOf(s1.log, Last(s1.log, k).value) < s1.tail + PlanFor(s1, want2).value.bytes
    ensures var s1 := Sync(Collect(s, clock, want1));
            Get(s1, k) == Ok(ValueSeen(s, k)) && ValueSeen(s, k).Some? &&
            Get(Sync(Collect(s1, clock, want2)), k) == Err(UnexpectedEof)
  {
    hide Inv, KeyInv, PlanFor, Collect, Loses, OffsetOf, Sync, Get, Seen, ValueSeen;
    var m := Collect(s, clock, want1);
    var s1 := Sync(m);
    LosesOrRewrites(s, want1, k);
    CycleIsInvisible(s, clock, want1, k);
    RewrittenIsLater(s, clock, want1, k);
    CollectKeepsInv(s, clock, want1);
    CollectKeepsKey(s, clock, want1, k);
    SyncKeepsInv(m, clock);
    SyncKeepsKey(m, clock, clock(m.tick), k);
    SyncFields(m);
    SeenIsSome(s, clock, want1, k);
    LaterIsLost(s1, clock, clock(s1.tick), want2, k);
    CycleIsInvisible(s1, clock, want2, k);
  }

  lemma SeenIsSome(s: State, clock: nat -> nat, want: nat, k: Key)
    requires Inv(s, clock) && KeyInv(s, clock(s.tick), k) && Rewrites(s, want, k)
    ensures ValueSeen(s, k).Some?
  {
    hide Inv, PlanFor, ValueSeen, Seen, LogTimed, Sound;
    PlanKey(s, clock, clock(s.tick), want, k);
  }

  lemma LastIsLatest(log: seq<Record>, now: nat, k: Key, j: nat)
    requires LogTimed(log, now, k) && j < |log| && log[j].key == k
    ensures Last(log, k).Some? && log[j].time <= log[Last(log, k).value].time
  {
  }

  /** A key seen with a later time than every record of it is not rewritten. */
  lemma LaterIsLost(s: State, clock: nat -> nat, now: nat, want: nat, k: Key)
    requires Inv(s, clock) && KeyInv(s, now, k) && PlanFor(s, want).Some? && Live(Seen(s, k)) && Last(s.log, k).Some?
    requires !s.log[Last(s.log, k).value].tomb && s.log[Last(s.log, k).value].time < Seen(s, k).value.time
    requires OffsetOf(s.log, Last(s.log, k).value) < s.tail + PlanFor(s, want).value.bytes
    ensures Loses(s, want, k)
  {
    hide PlanFor, OffsetOf, Seen, Inv, Sound, Layered, UpToDate, Unpunched, Covered, LogTimed, Last, JudgeAll;
    var c, d := PlanChunk(s, clock, want);
    var chunk := PlanFor(s, want).value.chunk;
    forall r | r in chunk && r.key == k
      ensures r.time < Seen(s, k).value.time
    {
      var j :| 0 <= j < |chunk| && chunk[j] == r;
      assert s.log[c + j] == r;
      LastIsLatest(s.log, now, k, c + j);
    }
  }

  /** A cycle moves the tail forward from one record boundary to another. */
  lemma TailAdvances(s: State, clock: nat -> nat, want: nat)
    requires Inv(s, clock) && Ticking(clock) && PlanFor(s, want).Some? &&
             clock(Collect(s, clock, want).tick) <= U64_LIMIT
    ensures var s' := Sync(Collect(s, clock, want));
            s'.tail == s.tail + PlanFor(s, want).value.bytes > s.tail && Boundary(s'.log, s'.tail) && s'.hole == s'.tail
  {
    hide Inv, Appended, JudgeAll, Rewrite, OffsetOf, InsertAll, PlanFor;
    var c, d := PlanChunk(s, clock, want);
    var p := PlanFor(s, want).value;
    CollectKeepsInv(s, clock, want);
    RewriteFields(s, clock, p.bytes, p.valid, []);
    var m := Collect(s, clock, want);
    SyncKeepsInv(m, clock);
    BoundaryOfTail(Sync(m), clock);
    ChunkNonEmpty(s, want);
    OffsetMonotone(s.log, c, d);
  }

  /** The first record a cycle appends is one of the key `tail`, with the tail after the hand-over in 8 bytes. */
  lemma TailRecorded(s: State, clock: nat -> nat, want: nat)
    requires Inv(s, clock) && PlanFor(s, want).Some?
    ensures var s' := Sync(Collect(s, clock, want));
            |s.log| < |s'.log| && var r := s'.log[|s.log|];
            r.key == [116, 97, 105, 108] && |r.value| == 8 && FromLe(r.value) == s'.tail % U64_LIMIT
  {
    hide Inv, JudgeAll, Rewrite, InsertAll, PlanFor, ToLe, FromLe, NewEntries;
    var p := PlanFor(s, want).value;
    PlanJudged(s, want);
    RewriteFields(s, clock, p.bytes, p.valid, []);
    Le64(s.tail + p.bytes);
  }

  lemma BoundaryOfTail(s: State, clock: nat -> nat)
    requires Inv(s, clock)
    ensures Boundary(s.log, s.tail)
  {
  }

  lemma ChunkNonEmpty(s: State, want: nat)
    requires PlanFor(s, want).Some?
    ensures PlanFor(s, want).value.chunk != []
  {
    hide ParseChunk, JudgeAll, File;
  }
}
