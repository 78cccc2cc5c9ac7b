/** Whole runs of the store: writes, flushes, collections, compaction steps and crashes in any order. Every
    read answers as a plain map would that has seen the same writes.
 */
module Runs {
  import opened Wrappers
  import opened Bytes
  import opened Entries
  import opened LogCodec
  import opened Merge
  import opened Memtables
  import opened Store
  import opened StoreSteps
  import opened Recovery
  import opened Collector

  datatype Op =
    | OpPut(key: Key, value: Value)
    | OpUpdate(key: Key, value: Value)
    | OpDelete(key: Key)
    | OpFlush(index: nat)
    | OpDrop(index: nat)
    | OpCollect(want: nat)
    | OpTables(tables: seq<seq<Entry>>)
    | OpCrash(head: nat)

  /** One step of the store, or nothing when no store comes after it: a recovery that cannot read the log
      from its head ends the run. Nor is there a step to unsorted tables, or from a head never saved. */
  function Exec(s: State, capacity: nat, clock: nat -> nat, op: Op): (r: Option<State>)
  {
    match op
    case OpPut(k, v) => Some(Put(s, capacity, clock, k, v))
    case OpUpdate(k, v) =>
      Some(if Validate(k, Some(v)).Err? || Get(s, k).Err? then s else Put(s, capacity, clock, k, v))
    case OpDelete(k) =>
      Some(if Validate(k, None).Err? || Get(s, k).Err? then s else Put(s, capacity, clock, k, MARKER))
    case OpFlush(i) => Some(if i < |s.sealed| then Flush(s, i) else s)
    case OpDrop(i) => Some(if i < |s.sealed| then DropSealed(s, i) else s)
    case OpCollect(want) => Some(Collect(s, clock, want))
    case OpTables(ts) => if AllSorted(ts) then Some(s.(tables := ts)) else None
    case OpCrash(n) =>
      if n >= |s.saved| then None else
      match Recover(s, capacity, n)
      case Err(_) => None
      case Ok(s') => Some(s')
  }

  lemma PutStep(s: State, capacity: nat, clock: nat -> nat, k: Key, v: Value)
    ensures Exec(s, capacity, clock, OpPut(k, v)) == Some(Put(s, capacity, clock, k, v))
  {
  }

  lemma CollectStep(s: State, capacity: nat, clock: nat -> nat, want: nat)
    ensures Exec(s, capacity, clock, OpCollect(want)) == Some(Collect(s, clock, want))
  {
  }

  lemma CrashStep(s: State, capacity: nat, clock: nat -> nat, n: nat)
    requires n < |s.saved|
    ensures var r := Recover(s, capacity, n);
            Exec(s, capacity, clock, OpCrash(n)) == if r.Ok? then Some(r.value) else None
  {
    hide Recover;
  }

  /** The same step of a plain map. */
  function Apply(m: map<Key, Value>, op: Op): (m': map<Key, Value>)
  {
    match op
    case OpPut(k, v) => Assign(m, k, v)
    case OpUpdate(k, v) => Assign(m, k, v)
    case OpDelete(k) => if Sized(k) then m - {k} else m
    case _ => m
  }

  function Assign(m: map<Key, Value>, k: Key, v: Value): (m': map<Key, Value>)
  {
    if !Sized(k) || !ValueSized(v) then m else if v == [42] then m - {k} else m[k := v]
  }

  function ApplyAll(ops: seq<Op>): (m: map<Key, Value>)
  {
    if ops == [] then map[] else Apply(ApplyAll(ops[..|ops| - 1]), ops[|ops| - 1])
  }

  function Lookup(m: map<Key, Value>, k: Key): (v: Option<Value>)
  {
    if k in m then Some(m[k]) else None
  }

  /** What a run must respect for the key: a flush does not overtake one with an older version of it; the
      tables change so that a read which gets to them finds the same; a crash comes when the tables alone are
      right about what the saved head leaves out; a collection neither drops it nor brings an old version of
      it back. */
  ghost predicate Allowed(s: State, op: Op, k: Key)
  {
    match op
    case OpFlush(i) => i < |s.sealed| ==> InOrder(s, i, k)
    case OpTables(ts) => Replaceable(s, ts, k)
    case OpCrash(n) => n < |s.saved| ==> Settled(s, n, k)
    case OpCollect(want) => !Loses(s, want, k) && !Reverts(s, want, k)
    case _ => true
  }

  /** A run of the store: its states, from a new store on. The log stays within 32-bit offsets and the
      clock within 64 bits. */
  ghost predicate Run(states: seq<State>, ops: seq<Op>, capacity: nat, clock: nat -> nat)
  {
    |states| == |ops| + 1 && states[0] == NewStore(clock) &&
    (forall i | 0 <= i < |ops| :: Exec(states[i], capacity, clock, ops[i]) == Some(states[i + 1])) &&
    (forall i | 0 <= i < |states| :: Small(states[i], clock(states[i].tick)))
  }

  ghost predicate RunAllowed(states: seq<State>, ops: seq<Op>, k: Key)
    requires |states| == |ops| + 1
  {
    forall i | 0 <= i < |ops| :: Allowed(states[i], ops[i], k)
  }

  // ---------------------------------------------------------------------
  // The first state

  lemma NewStoreInv(clock: nat -> nat)
    requires Ticking(clock) && clock(1) <= U64_LIMIT
    ensures Inv(NewStore(clock), clock)
  {
    hide InsertSorted, Sorted, OffsetOf;
    var s := NewStore(clock);
    var log := s.log;
    assert FirstLog(clock(0)) + [] == log;
    DefaultHeadIsHeadRecord(clock(0), []);
    OffsetZero(log);
    var e1, e2 := Entry(TAIL_KEY, 0, clock(0), false), Entry(HEAD_KEY, OffsetOf(log, 1), clock(0), false);
    EmptySorted();
    InsertKeepsSorted([], e1);
    InsertKeepsSorted(InsertSorted([], e1), e2);
    assert RecordAt(log, DEFAULT_HEAD) && Boundary(log, 0) && RecordAt(log, 0);
  }

  lemma NewStoreKey(clock: nat -> nat, k: Key)
    requires Ticking(clock) && UserKey(k)
    ensures KeyInv(NewStore(clock), clock(1), k)
    ensures Current(NewStore(clock).log, k) == None
  {
    hide InsertSorted, Sorted, OffsetOf, Find;
    var s := NewStore(clock);
    var log := s.log;
    assert FirstLog(clock(0)) + [] == log;
    DefaultHeadIsHeadRecord(clock(0), []);
    var e1, e2 := Entry(TAIL_KEY, 0, clock(0), false), Entry(HEAD_KEY, OffsetOf(log, 1), clock(0), false);
    EmptySorted();
    InsertKeepsSorted([], e1);
    InsertFinds([], e1, k);
    InsertFinds(InsertSorted([], e1), e2, k);
    FindNone(k);
    assert Last(log, k) == None;
    assert CoveredAt(s, k, 1);
    assert HeadCovered(s, k, s.saved[0].0);
  }

  // ---------------------------------------------------------------------
  // One step

  /** The state is right about the key. */
  ghost predicate Right(s: State, clock: nat -> nat, m: map<Key, Value>, k: Key)
  {
    Inv(s, clock) && KeyInv(s, clock(s.tick), k) && Current(s.log, k) == Lookup(m, k)
  }

  lemma PutRight(s: State, capacity: nat, clock: nat -> nat, m: map<Key, Value>, k0: Key, v: Value, k: Key)
    requires Right(s, clock, m, k) && UserKey(k) && Ticking(clock)
    requires var s' := Put(s, capacity, clock, k0, v); Small(s', clock(s'.tick))
    ensures Right(Put(s, capacity, clock, k0, v), clock, Assign(m, k0, v), k)
  {
    hide Inv, KeyInv, Write, Sync, Size;
    if Validate(k0, Some(v)).Ok? {
      var m0 := Synced(s);
      if s.gc != [] {
        SyncKeepsInv(s, clock);
        SyncKeepsKey(s, clock, clock(s.tick), k);
      }
      SyncedFields(s);
      var s' := Write(m0, capacity, clock, k0, v);
      var r := Record(k0, v, clock(m0.tick), v == MARKER);
      WriteFields(m0, capacity, clock, k0, v);
      WriteFits(m0.log, r, clock(s'.tick));
      WriteKeeps(m0, capacity, clock, k0, v, k);
      LastAppend(m0.log, r, k);
      if k == k0 {
        assert s'.log[|m0.log|] == r;
      }
    }
  }

  lemma SyncedFields(s: State)
    ensures Synced(s).log == s.log && Synced(s).gc == [] && Synced(s).tick == s.tick
  {
  }

  lemma WriteFields(s: State, capacity: nat, clock: nat -> nat, k: Key, v: Value)
    ensures Write(s, capacity, clock, k, v).tick > s.tick
    ensures Write(s, capacity, clock, k, v).log == s.log + [Record(k, v, clock(s.tick), v == MARKER)]
  {
    hide InsertSorted, Size;
  }

  /** A log that fits 32-bit offsets holds only records whose lengths fit their fields. */
  lemma WriteFits(log: seq<Record>, r: Record, now: nat)
    requires Size(log + [r]) <= U32_LIMIT && r.time < now <= U64_LIMIT && r.key != [] && r.value != []
    ensures WellFormed(r)
  {
    assert (log + [r])[..|log|] == log;
  }

  lemma CollectRight(s: State, clock: nat -> nat, m: map<Key, Value>, want: nat, k: Key)
    requires Right(s, clock, m, k) && UserKey(k) && Ticking(clock) && !Loses(s, want, k) && !Reverts(s, want, k)
    requires var s' := Collect(s, clock, want); Small(s', clock(s'.tick))
    ensures Right(Collect(s, clock, want), clock, m, k)
  {
    hide Inv, KeyInv, Loses, Collect, Current, Rewrites, ValueSeen;
    CollectKeepsInv(s, clock, want);
    CollectKeepsKey(s, clock, want, k);
    CollectKeepsCurrent(s, clock, clock(s.tick), want, k);
  }

  lemma FlushRight(s: State, clock: nat -> nat, m: map<Key, Value>, i: nat, k: Key)
    requires Right(s, clock, m, k) && i < |s.sealed| && InOrder(s, i, k) && Small(s, clock(s.tick))
    ensures Right(Flush(s, i), clock, m, k)
  {
    hide Inv, KeyInv, Current, Size;
    FlushKeepsInv(s, clock, i);
    FlushKeepsKey(s, clock(s.tick), i, k);
  }

  lemma DropRight(s: State, clock: nat -> nat, m: map<Key, Value>, i: nat, k: Key)
    requires Right(s, clock, m, k) && i < |s.sealed|
    ensures Right(DropSealed(s, i), clock, m, k)
  {
    hide KeyInv, Current, Inv;
    DropKeepsKey(s, clock(s.tick), i, k);
    DropKeepsInv(s, clock, i);
  }

  lemma DropKeepsInv(s: State, clock: nat -> nat, i: nat)
    requires Inv(s, clock) && i < |s.sealed|
    ensures Inv(DropSealed(s, i), clock)
  {
    hide Sorted, Boundary, RecordAt, AllWellFormed;
    EmptySorted();
  }

  lemma TablesRight(s: State, clock: nat -> nat, m: map<Key, Value>, ts: seq<seq<Entry>>, k: Key)
    requires Right(s, clock, m, k) && AllSorted(ts) && Replaceable(s, ts, k)
    ensures Right(s.(tables := ts), clock, m, k)
  {
    hide KeyInv, Current, Boundary, RecordAt, AllWellFormed, Replaceable;
    ReplaceKeepsKey(s, ts, clock(s.tick), k);
    assert Inv(s.(tables := ts), clock);
  }

  lemma CrashRight(s: State, capacity: nat, clock: nat -> nat, m: map<Key, Value>, n: nat, k: Key)
    requires Right(s, clock, m, k) && n < |s.saved| && Settled(s, n, k) && Recover(s, capacity, n).Ok?
    ensures Right(Recover(s, capacity, n).value, clock, m, k)
  {
    hide KeyInv, Current, Recover, OffsetOf, Replayed, Inv, SettledAt;
    SavedRecord(s, clock, n);
    var h: nat :| h < |s.log| && OffsetOf(s.log, h) == s.saved[n].0;
    RecoverReads(s, clock, capacity, n, h);
    RecoverKeepsInv(s, clock, clock(s.tick), capacity, n, h);
    RecoverKeepsKey(s, clock, clock(s.tick), capacity, n, h, k);
  }

  /** A store comes back from a crash if and only if the saved head was not punched away. */
  lemma CrashReopens(s: State, capacity: nat, clock: nat -> nat, n: nat)
    requires Inv(s, clock) && n < |s.saved|
    ensures Exec(s, capacity, clock, OpCrash(n)).Some? <==> s.hole <= s.saved[n].0
  {
    hide Recover, OffsetOf, Replayed, Inv;
    SavedRecord(s, clock, n);
    var h: nat :| h < |s.log| && OffsetOf(s.log, h) == s.saved[n].0;
    RecoverReads(s, clock, capacity, n, h);
  }

  lemma SavedRecord(s: State, clock: nat -> nat, n: nat)
    requires Inv(s, clock) && n < |s.saved|
    ensures RecordAt(s.log, s.saved[n].0)
  {
  }

  /** Every step keeps the state right about the key. */
  lemma StepRight(s: State, capacity: nat, clock: nat -> nat, m: map<Key, Value>, op: Op, s': State, k: Key)
    requires Right(s, clock, m, k) && UserKey(k) && Ticking(clock) && Allowed(s, op, k) && Small(s, clock(s.tick))
    requires Exec(s, capacity, clock, op) == Some(s') && Small(s', clock(s'.tick))
    ensures Right(s', clock, Apply(m, op), k)
  {
    hide Right, Put, Collect, Flush, DropSealed, Recover, Replaceable, Loses, Reverts, Size, InOrder, Settled, Get;
    match op
    case OpPut(k0, v) => PutRight(s, capacity, clock, m, k0, v, k);
    case OpUpdate(k0, v) =>
      GetRight(s, clock, m, k);
      if Validate(k0, Some(v)).Err? || Get(s, k0).Err? {
        RightSame(s, clock, m, Assign(m, k0, v), k);
      } else {
        PutRight(s, capacity, clock, m, k0, v, k);
      }
    case OpDelete(k0) =>
      GetRight(s, clock, m, k);
      if Validate(k0, None).Err? || Get(s, k0).Err? {
        RightSame(s, clock, m, Apply(m, op), k);
      } else {
        PutRight(s, capacity, clock, m, k0, MARKER, k);
      }
    case OpFlush(i) => if i < |s.sealed| { FlushRight(s, clock, m, i, k); }
    case OpDrop(i) => if i < |s.sealed| { DropRight(s, clock, m, i, k); }
    case OpCollect(want) => CollectRight(s, clock, m, want, k);
    case OpTables(ts) => TablesRight(s, clock, m, ts, k);
    case OpCrash(n) => CrashRight(s, capacity, clock, m, n, k);
  }

  lemma GetRight(s: State, clock: nat -> nat, m: map<Key, Value>, k: Key)
    requires Right(s, clock, m, k)
    ensures Sized(k) ==> Get(s, k) == Ok(Lookup(m, k))
  {
    hide KeyInv, Get;
    if Sized(k) {
      GetIsCurrent(s, clock, clock(s.tick), k);
    }
  }

  lemma RightSame(s: State, clock: nat -> nat, m: map<Key, Value>, m': map<Key, Value>, k: Key)
    requires Right(s, clock, m, k) && Lookup(m', k) == Lookup(m, k)
    ensures Right(s, clock, m', k)
  {
    hide KeyInv, Inv;
  }

  // ---------------------------------------------------------------------
  // Whole runs

  /** After any number of allowed steps the state is right about the key. */
  lemma {:induction false} RunRight(states: seq<State>, ops: seq<Op>, capacity: nat, clock: nat -> nat, n: nat, k: Key)
    requires Run(states, ops, capacity, clock) && RunAllowed(states, ops, k) && n <= |ops|
    requires UserKey(k) && Ticking(clock)
    ensures Right(states[n], clock, ApplyAll(ops[..n]), k)
  {
    hide Right, Exec, Allowed;
    if n == 0 {
      assert states[0].tick == 1;
      NewStoreRight(clock, k);
      assert ops[..0] == [];
    } else {
      RunRight(states, ops, capacity, clock, n - 1, k);
      assert Exec(states[n - 1], capacity, clock, ops[n - 1]) == Some(states[n - 1 + 1]);
      StepRight(states[n - 1], capacity, clock, ApplyAll(ops[..n - 1]), ops[n - 1], states[n], k);
      assert ops[..n][..n - 1] == ops[..n - 1];
    }
  }

  lemma NewStoreRight(clock: nat -> nat, k: Key)
    requires Ticking(clock) && clock(1) <= U64_LIMIT && UserKey(k)
    ensures Right(NewStore(clock), clock, map[], k)
  {
    hide KeyInv, Inv;
    NewStoreInv(clock);
    NewStoreKey(clock, k);
  }

  /** The store refines a plain map. After any run of puts, updates, deletes, flushes, collections,
      table changes and crashes, in any order the key allows, a read of the key returns exactly what
      the plain map holds after the same writes. */
  lemma StoreRefinesMap(states: seq<State>, ops: seq<Op>, capacity: nat, clock: nat -> nat, k: Key)
    requires Run(states, ops, capacity, clock) && RunAllowed(states, ops, k)
    requires UserKey(k) && 1 <= |k| <= 65536 && Ticking(clock)
    ensures Get(states[|ops|], k) == Ok(Lookup(ApplyAll(ops), k))
  {
    hide Right, Get, Exec, RunAllowed;
    RunRight(states, ops, capacity, clock, |ops|, k);
    assert ops[..|ops|] == ops;
    GetRight(states[|ops|], clock, ApplyAll(ops), k);
  }

  // ---------------------------------------------------------------------
  // The invariant of the whole state, whatever happens to the keys

  lemma PutKeepsInv(s: State, capacity: nat, clock: nat -> nat, k: Key, v: Value)
    requires Inv(s, clock) && Ticking(clock)
    requires var s' := Put(s, capacity, clock, k, v); Small(s', clock(s'.tick))
    ensures Inv(Put(s, capacity, clock, k, v), clock)
  {
    hide Inv, Sync, Size, InsertSorted, SealAt, AppendAt, Write, KeyInv;
    if Validate(k, Some(v)).Ok? {
      var m := Synced(s);
      if s.gc != [] {
        SyncKeepsInv(s, clock);
      }
      SyncedFields(s);
      var time := clock(m.tick);
      WriteFields(m, capacity, clock, k, v);
      WriteFits(m.log, Record(k, v, time, v == MARKER), clock(Write(m, capacity, clock, k, v).tick));
      WriteIs(m, capacity, clock, k, v);
      if Full(m.active, capacity, HEAD_KEY_SIZE) {
        var m' := SealAt(m, clock(m.tick + 1));
        SealFields(m, clock(m.tick + 1));
        SealKeepsInv(m, clock, clock(m.tick + 1));
        AppendKeepsInv(m', clock, time, k, v);
        TickFree(AppendAt(m', time, k, v), clock, m.tick + 2, 0, k);
      } else {
        AppendKeepsInv(m, clock, time, k, v);
        TickFree(AppendAt(m, time, k, v), clock, m.tick + 1, 0, k);
      }
    }
  }

  lemma TablesKeepInv(s: State, clock: nat -> nat, ts: seq<seq<Entry>>)
    requires Inv(s, clock) && AllSorted(ts)
    ensures Inv(s.(tables := ts), clock)
  {
    hide Boundary, RecordAt, AllWellFormed, Sorted;
  }

  lemma StepKeepsInv(s: State, capacity: nat, clock: nat -> nat, op: Op, s': State)
    requires Inv(s, clock) && Ticking(clock)
    requires Exec(s, capacity, clock, op) == Some(s') && Small(s', clock(s'.tick))
    ensures Inv(s', clock)
  {
    hide Inv, Put, Collect, Flush, Recover, Get, Size, Sorted;
    match op
    case OpPut(k, v) => PutKeepsInv(s, capacity, clock, k, v);
    case OpUpdate(k, v) => if s' != s { PutKeepsInv(s, capacity, clock, k, v); }
    case OpDelete(k) => if s' != s { PutKeepsInv(s, capacity, clock, k, MARKER); }
    case OpFlush(i) => if i < |s.sealed| { FlushKeepsInv(s, clock, i); }
    case OpDrop(i) => if i < |s.sealed| { DropKeepsInv(s, clock, i); }
    case OpCollect(want) => CollectKeepsInv(s, clock, want);
    case OpTables(ts) => TablesKeepInv(s, clock, ts);
    case OpCrash(n) =>
      SavedRecord(s, clock, n);
      var h: nat :| h < |s.log| && OffsetOf(s.log, h) == s.saved[n].0;
      RecoverReads(s, clock, capacity, n, h);
      RecoverKeepsInv(s, clock, 0, capacity, n, h);
  }

  lemma SortedParts(s: State, clock: nat -> nat)
    requires Inv(s, clock)
    ensures AllSorted(s.sealed) && AllSorted(s.tables)
  {
  }

  lemma {:induction false} RunKeepsInv(states: seq<State>, ops: seq<Op>, capacity: nat, clock: nat -> nat, n: nat)
    requires Run(states, ops, capacity, clock) && n <= |ops| && Ticking(clock)
    ensures Inv(states[n], clock)
  {
    hide Inv, Exec;
    if n == 0 {
      assert states[0].tick == 1;
      NewStoreInv(clock);
    } else {
      RunKeepsInv(states, ops, capacity, clock, n - 1);
      assert Exec(states[n - 1], capacity, clock, ops[n - 1]) == Some(states[n - 1 + 1]);
      StepKeepsInv(states[n - 1], capacity, clock, ops[n - 1], states[n]);
    }
  }

  // ---------------------------------------------------------------------
  // The tail over whole runs

  /** Only a crash moves the tail back; the hole never shrinks. */
  lemma StepTail(s: State, capacity: nat, clock: nat -> nat, op: Op, s': State)
    requires Inv(s, clock) && Exec(s, capacity, clock, op) == Some(s')
    ensures !op.OpCrash? ==> s.tail <= s'.tail
    ensures s.hole <= s'.hole
  {
    hide Get, Size, InsertAll, InsertSorted, AllWellFormed, Boundary, RecordAt, PlanFor, Appended, InsertEach,
         NewEntries, ParseAll, Replayed, Sorted;
  }

  /** The tail is a record boundary in every state of every run. */
  lemma TailIsBoundary(states: seq<State>, ops: seq<Op>, capacity: nat, clock: nat -> nat, n: nat)
    requires Run(states, ops, capacity, clock) && n <= |ops| && Ticking(clock)
    ensures Boundary(states[n].log, states[n].tail) && states[n].tail <= states[n].hole
  {
    hide Exec;
    RunKeepsInv(states, ops, capacity, clock, n);
  }

  /** Between two crashes the tail never moves back, and over the whole run the hole never shrinks. */
  lemma {:induction false} TailNeverBack(states: seq<State>, ops: seq<Op>, capacity: nat, clock: nat -> nat, i: nat,
                                         j: nat)
    requires Run(states, ops, capacity, clock) && i <= j <= |ops| && Ticking(clock)
    ensures (forall n | i <= n < j :: !ops[n].OpCrash?) ==> states[i].tail <= states[j].tail
    ensures states[i].hole <= states[j].hole
    decreases j
  {
    hide Exec, Inv;
    if i < j {
      TailNeverBack(states, ops, capacity, clock, i, j - 1);
      RunKeepsInv(states, ops, capacity, clock, j - 1);
      assert Exec(states[j - 1], capacity, clock, ops[j - 1]) == Some(states[j - 1 + 1]);
      StepTail(states[j - 1], capacity, clock, ops[j - 1], states[j]);
    }
  }

  /** The collector reads from inside the hole, and so would it after every crash to come. */
  predicate Stuck(s: State)
  {
    s.gc == [] && s.tail < s.hole && forall n | 0 <= n < |s.saved| :: s.saved[n].1 < s.hole
  }

  /** A recovery leaves the collector stuck if and only if the saved tail is from before a punch. */
  lemma RecoveryStuckIff(s: State, capacity: nat, n: nat)
    requires n < |s.saved| && Recover(s, capacity, n).Ok?
    ensures Stuck(Recover(s, capacity, n).value) <==> s.saved[n].1 < s.hole
  {
    hide ParseAll, Replayed, File;
  }

  lemma StuckPlansNothing(s: State, clock: nat -> nat, want: nat)
    requires Inv(s, clock) && Stuck(s)
    ensures PlanFor(s, want).None?
  {
    hide PlanFor, Inv, JudgeAll, OffsetOf;
    if PlanFor(s, want).Some? {
      var c, d := PlanChunk(s, clock, want);
      assert false;
    }
  }

  lemma StuckStep(s: State, capacity: nat, clock: nat -> nat, op: Op, s': State)
    requires Inv(s, clock) && Stuck(s) && Exec(s, capacity, clock, op) == Some(s')
    ensures Stuck(s')
  {
    hide Get, Size, InsertSorted, Inv, PlanFor, ParseAll, Replayed, File;
    if op.OpCollect? {
      StuckPlansNothing(s, clock, op.want);
    }
  }

  /** A collector that is stuck never works again, whatever the rest of the run, crashes included. */
  lemma {:induction false} StuckForever(states: seq<State>, ops: seq<Op>, capacity: nat, clock: nat -> nat, i: nat,
                                        j: nat, want: nat)
    requires Run(states, ops, capacity, clock) && i <= j <= |ops| && Ticking(clock) && Stuck(states[i])
    ensures Stuck(states[j]) && PlanFor(states[j], want).None?
    decreases j
  {
    hide Exec, Inv, PlanFor, Stuck;
    RunKeepsInv(states, ops, capacity, clock, j);
    if i < j {
      StuckForever(states, ops, capacity, clock, i, j - 1, want);
      RunKeepsInv(states, ops, capacity, clock, j - 1);
      assert Exec(states[j - 1], capacity, clock, ops[j - 1]) == Some(states[j - 1 + 1]);
      StuckStep(states[j - 1], capacity, clock, ops[j - 1], states[j]);
    }
    StuckPlansNothing(states[j], clock, want);
  }
}
