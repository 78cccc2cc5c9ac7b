/** A read of the store with its SSTables on disk: the memtables are searched as before, the tables through key
    ranges, filters, indexes and scans.
 */
module ReadPath {
  import opened Wrappers
  import opened Bytes
  import opened Entries
  import opened Merge
  import opened Store
  import LogCodec
  import StoreSteps
  import opened KeyRanges
  import opened TableSearch
  import opened DataStores
  import Runs

  /** Times identify the versions of the key in tables whose versions all stand for records. */
  lemma RightIdentified(log: seq<LogCodec.Record>, now: nat, order: seq<nat>, dirs: set<nat>, content: Content, k: Key)
    requires Lists(order, dirs) && AllOk(log, now, ContentsOf(order, content), k)
    ensures Identified(dirs, content, k)
  {
    hide VersionOk, Find;
    forall c, d | c in dirs && d in dirs
      ensures var x, y := Find(content(c), k), Find(content(d), k);
              (x.Some? ==> x.value.time > 0) && SameWhenSimultaneous(x, y)
    {
      var x, y := Find(content(c), k), Find(content(d), k);
      ListedVersion(order, dirs, content, c, k);
      ListedVersion(order, dirs, content, d, k);
      if x.Some? {
        VersionPositive(log, x.value);
        if y.Some? && x.value.time == y.value.time {
          VersionOrder(log, x.value, y.value);
          VersionOrder(log, y.value, x.value);
        }
      }
    }
  }

  lemma ListedVersion(order: seq<nat>, dirs: set<nat>, content: Content, d: nat, k: Key)
    requires Lists(order, dirs) && d in dirs
    ensures Find(content(d), k).Some? ==>
              Find(content(d), k).value.key == k && Version(ContentsOf(order, content), Find(content(d), k).value)
  {
    hide Find;
    FindMember(content(d), k);
    var i :| 0 <= i < |order| && order[i] == d;
    assert ContentsOf(order, content)[i] == content(d);
  }

  /** What the store reads when the tables `others` are searched as well. */
  lemma ReadWithOthers(s: State, clock: nat -> nat, m: map<Key, Value>, others: seq<seq<Entry>>, k: Key)
    requires Runs.Right(s, clock, m, k) && AllOk(s.log, clock(s.tick), others, k) && Sized(k)
    ensures Store.Get(s.(tables := s.tables + others), k) == Ok(Runs.Lookup(m, k)) <==>
            !StoreSteps.Haunted(s, others, k)
  {
    hide Inv, Sound, Store.Get, UpToDate, StoreSteps.Haunted, Layered, Covered, LogTimed, Current, AllOk;
    StoreSteps.HauntedIff(s, clock(s.tick), others, k);
    if StoreSteps.Haunted(s, others, k) {
      StoreSteps.HauntedRead(s, clock, clock(s.tick), others, k);
    } else {
      GetAnswers(s, clock, s.tables + others, clock(s.tick), k);
    }
  }

  /** The tables searched besides those of the store: no table holds a version that was never written. */
  ghost predicate OnceWritten(s: State, clock: nat -> nat, lost: iset<Key>, others: seq<seq<Entry>>)
  {
    forall k: Key | UserKey(k) && k !in lost :: AllOk(s.log, clock(s.tick), others, k)
  }

  lemma AllTablesOk(s: State, clock: nat -> nat, m: map<Key, Value>, order: seq<nat>, removed: seq<nat>,
                    content: Content, k: Key)
    requires Runs.Right(s, clock, m, k) && s.tables == ContentsOf(order, content)
    requires AllOk(s.log, clock(s.tick), ContentsOf(removed, content), k)
    ensures ContentsOf(order + removed, content) == s.tables + ContentsOf(removed, content)
    ensures AllOk(s.log, clock(s.tick), ContentsOf(order + removed, content), k)
  {
    hide Inv, VersionOk, Version, UpToDate, Layered, Covered, LogTimed, Unpunched, Find, Current;
    assert ContentsOf(order + removed, content) == s.tables + ContentsOf(removed, content);
    forall e: Entry
      ensures Version(s.tables + ContentsOf(removed, content), e) <==>
              Version(s.tables, e) || Version(ContentsOf(removed, content), e)
    {
      StoreSteps.VersionConcat(s.tables, ContentsOf(removed, content), e);
    }
  }

  /** The memtables, then the tables through the files. */
  method SearchTiers(store: DataStore, ranges: KeyRange, disk: Disk, ghost order: seq<nat>, key: Key)
      returns (x: Option<Entry>)
    requires ranges.Valid() && Lists(order, ranges.keyRanges.Keys + ranges.restoredRanges.Keys)
    requires forall d: nat | d in ranges.keyRanges || d in ranges.restoredRanges :: Written(disk(d), ranges.content(d))
    ensures Identified(ranges.keyRanges.Keys + ranges.restoredRanges.Keys, ranges.content, key) ==>
              x == Tiered(store.View().(tables := ContentsOf(order, ranges.content)), key)
  {
    hide Find, Newest, Written, Identified;
    x := Find(store.active.entries, key);
    if x.None? {
      x := SearchNewest(store.readOnly, key);
      if x.None? {
        var found, rebuilt := Search(ranges, disk, key);
        x := found.value;
      }
    }
  }

  /** The read through the files. `order` lists the directories of the store's tables in their order; `removed`
      are the other registered and restored ones, which a round of compaction has removed since. The read is that
      of the store with those tables added, and returns what the plain map holds if and only if they do not haunt
      the key. */
  method Get(store: DataStore, ranges: KeyRange, disk: Disk, ghost order: seq<nat>, ghost removed: seq<nat>, key: Key)
      returns (r: Result<Option<Value>>)
    requires store.Good() && ranges.Valid()
    requires forall d: nat | d in ranges.keyRanges || d in ranges.restoredRanges :: Written(disk(d), ranges.content(d))
    requires Lists(order + removed, ranges.keyRanges.Keys + ranges.restoredRanges.Keys)
    requires store.tables == ContentsOf(order, ranges.content)
    requires OnceWritten(store.View(), store.clock, store.lost, ContentsOf(removed, ranges.content))
    ensures UserKey(key) && key !in store.lost ==>
              r == Store.Get(store.View().(tables := store.tables + ContentsOf(removed, ranges.content)), key)
    ensures UserKey(key) && key !in store.lost && Sized(key) ==>
              (r == Ok(Runs.Lookup(store.contents, key)) <==>
               !StoreSteps.Haunted(store.View(), ContentsOf(removed, ranges.content), key))
  {
    hide Find, Newest, Written, Inv, Runs.Right, File, StoreSteps.Haunted, AllOk, LogCodec.GetValue, Tiered, Identified,
         ContentsOf, Lists;
    ghost var right := UserKey(key) && key !in store.lost;
    ghost var dirs := ranges.keyRanges.Keys + ranges.restoredRanges.Keys;
    ghost var s, others := store.View(), ContentsOf(removed, ranges.content);
    if right {
      AllTablesOk(s, store.clock, store.contents, order, removed, ranges.content, key);
      RightIdentified(s.log, store.clock(s.tick), order + removed, dirs, ranges.content, key);
    }
    var ok := Validate(key, None);
    if ok.Err? {
      return Err(ok.error);
    }
    if right {
      ReadWithOthers(s, store.clock, store.contents, others, key);
    }
    r := store.GetValueFromVlog(Find(store.gcUpdated, key));
    SameFile(s, s.(tables := s.tables + others));
    if r.Err? || r.value.Some? {
      return;
    }
    var x := SearchTiers(store, ranges, disk, order + removed, key);
    r := store.GetValueFromVlog(x);
  }
}
