/** The search of the SSTables as a read runs it: key ranges and filters choose the tables, the index of each
    finds a block, a scan finds the entry, and the newest entry wins.
 */
module TableSearch {
  import opened Wrappers
  import opened Bytes
  import opened Entries
  import opened Merge
  import opened KeyRanges
  import SsTable
  import TableFile

  datatype Files = Files(data: seq<Byte>, index: seq<Byte>)

  /** The files in each directory. */
  type Disk = nat -> Files

  /** The files answer every lookup as the entries do. */
  ghost predicate Written(f: Files, es: seq<Entry>)
  {
    forall k: Key :: SsTable.Lookup(f.data, f.index, k) == Ok(Find(es, k))
  }

  /** The files of a flushed memtable answer as the table that the flush adds to the store. */
  method WriteTable(es: seq<Entry>) returns (r: Result<Files>)
    requires Sorted(es)
    ensures r.Ok? <==> es != [] && SsTable.Fits(es)
    ensures r.Ok? && SsTable.SizeOf(es) <= U32_LIMIT && (forall e | e in es :: e.key != []) ==>
              Written(r.value, SsTable.StoredAll(es))
  {
    hide SsTable.Lookup, SsTable.StoredAll, SsTable.Fits, SsTable.SizeOf, Sorted, Find;
    var table := new TableFile.Table(es);
    var written := table.WriteToFile();
    if written.Err? {
      return Err(written.error);
    }
    return Ok(Files(table.data, table.index));
  }

  function EntriesOf(found: seq<Range>): (ts: seq<seq<Entry>>)
    ensures |ts| == |found| && forall i | 0 <= i < |found| :: ts[i] == found[i].entries
  {
    seq(|found|, i requires 0 <= i < |found| => found[i].entries)
  }

  function ContentsOf(order: seq<nat>, content: Content): (ts: seq<seq<Entry>>)
    ensures |ts| == |order| && forall i | 0 <= i < |order| :: ts[i] == content(order[i])
  {
    seq(|order|, i requires 0 <= i < |order| => content(order[i]))
  }

  /** The newest of what the chosen tables hold, or the first error. */
  function NewestFound(found: seq<Range>, disk: Disk, key: Key): (r: Result<Option<Entry>>)
  {
    if found == [] then Ok(None) else
    var n := |found| - 1;
    match NewestFound(found[..n], disk, key)
    case Err(e) => Err(e)
    case Ok(best) =>
      match SsTable.Lookup(disk(found[n].dir).data, disk(found[n].dir).index, key)
      case Err(e) => Err(e)
      case Ok(x) => Ok(Newer(best, x))
  }

  lemma {:induction false} FirstError(found: seq<Range>, disk: Disk, key: Key, n: nat)
    requires n <= |found| && NewestFound(found[..n], disk, key).Err?
    ensures NewestFound(found, disk, key) == NewestFound(found[..n], disk, key)
    decreases |found|
  {
    hide SsTable.Lookup;
    if n == |found| {
      assert found[..n] == found;
    } else {
      assert found[..|found| - 1][..n] == found[..n];
      FirstError(found[..|found| - 1], disk, key, n);
    }
  }

  /** Over written tables the search does not fail, and finds the newest of their entries. */
  lemma {:induction false} NewestFoundIs(found: seq<Range>, disk: Disk, key: Key)
    requires forall x | x in found :: Written(disk(x.dir), x.entries)
    ensures NewestFound(found, disk, key) == Ok(Newest(EntriesOf(found), key))
  {
    hide SsTable.Lookup, Find;
    if found != [] {
      var n := |found| - 1;
      NewestFoundIs(found[..n], disk, key);
      assert EntriesOf(found)[..n] == EntriesOf(found[..n]);
      assert found[n] in found && Written(disk(found[n].dir), found[n].entries);
    }
  }

  /** `search_key_in_sstables` */
  method SearchTables(found: seq<Range>, disk: Disk, key: Key) returns (r: Result<Option<Entry>>)
    ensures r == NewestFound(found, disk, key)
  {
    hide SsTable.SearchIndex, SsTable.ScanFor;
    var best: Option<Entry> := None;
    var insertTime := 0;
    var i := 0;
    while i < |found|
      invariant 0 <= i <= |found|
      invariant NewestFound(found[..i], disk, key) == Ok(best)
      invariant insertTime == if best.Some? then best.value.time else 0
    {
      assert found[..i + 1][..i] == found[..i];
      var f := disk(found[i].dir);
      var handle := TableFile.GetFromIndex(f.index, key);
      if handle.Err? {
        FirstError(found, disk, key, i + 1);
        return Err(handle.error);
      }
      if handle.value.Some? {
        var entry := TableFile.FindEntry(f.data, handle.value.value, key);
        if entry.Err? {
          FirstError(found, disk, key, i + 1);
          return Err(entry.error);
        }
        if entry.value.Some? && entry.value.value.time > insertTime {
          best, insertTime := entry.value, entry.value.value.time;
        }
      }
      i := i + 1;
    }
    assert found[..i] == found;
    return Ok(best);
  }

  /** The times of the versions of the key in these directories are positive and identify them. */
  ghost predicate Identified(dirs: set<nat>, content: Content, k: Key)
  {
    forall c, d | c in dirs && d in dirs ::
      var x, y := Find(content(c), k), Find(content(d), k);
      (x.Some? ==> x.value.time > 0) && SameWhenSimultaneous(x, y)
  }

  predicate Lists(order: seq<nat>, dirs: set<nat>)
  {
    (forall i | 0 <= i < |order| :: order[i] in dirs) && (forall d | d in dirs :: d in order)
  }

  /** Everything chosen is registered, and every registered table that holds the key is chosen. */
  ghost predicate Complete(found: seq<Range>, dirs: set<nat>, content: Content, k: Key)
  {
    (forall x | x in found :: x.dir in dirs && x.entries == content(x.dir)) &&
    (forall d | d in dirs && Find(content(d), k).Some? ::
       exists x :: x in found && x.dir == d && x.entries == content(d))
  }

  lemma CompleteIsEnough(found: seq<Range>, order: seq<nat>, dirs: set<nat>, content: Content, k: Key)
    requires Complete(found, dirs, content, k) && Lists(order, dirs) && Identified(dirs, content, k)
    ensures Newest(EntriesOf(found), k) == Newest(ContentsOf(order, content), k)
  {
    hide Newest, Find;
    var a, b := EntriesOf(found), ContentsOf(order, content);
    var x, y := Newest(a, k), Newest(b, k);
    NewestIsLatest(a, k);
    NewestIsLatest(b, k);
    if x.Some? {
      var i :| 0 <= i < |a| && Find(a[i], k) == Some(x.value);
      assert found[i] in found;
      var j :| 0 <= j < |order| && order[j] == found[i].dir;
      assert Find(b[j], k) == x;
    }
    if y.Some? {
      var j :| 0 <= j < |b| && Find(b[j], k) == Some(y.value);
      var r :| r in found && r.dir == order[j] && r.entries == content(order[j]);
      var i :| 0 <= i < |found| && found[i] == r;
      assert Find(a[i], k) == y;
    }
  }

  /** The whole search finds the newest version of all registered and restored tables, in whatever order one
      lists them. It also returns the ranges whose filters it rebuilt. */
  method Search(ranges: KeyRange, disk: Disk, key: Key) returns (r: Result<Option<Entry>>, rebuilt: map<nat, Range>)
    requires ranges.Valid()
    requires forall d: nat | d in ranges.keyRanges || d in ranges.restoredRanges :: Written(disk(d), ranges.content(d))
    ensures r.Ok?
    ensures var dirs := ranges.keyRanges.Keys + ranges.restoredRanges.Keys;
            Identified(dirs, ranges.content, key) ==>
              forall order: seq<nat> | Lists(order, dirs) :: r == Ok(Newest(ContentsOf(order, ranges.content), key))
  {
    hide Newest, Find, Written, NewestFound;
    var found;
    found, rebuilt := ranges.FilterSstablesByKeyRange(key);
    r := SearchTables(found, disk, key);
    NewestFoundIs(found, disk, key);
    ghost var dirs := ranges.keyRanges.Keys + ranges.restoredRanges.Keys;
    if Identified(dirs, ranges.content, key) {
      forall order: seq<nat> | Lists(order, dirs)
        ensures r == Ok(Newest(ContentsOf(order, ranges.content), key))
      {
        CompleteIsEnough(found, order, dirs, ranges.content, key);
      }
    }
  }
}
