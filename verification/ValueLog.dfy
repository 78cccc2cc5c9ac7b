/** The value log as an object: a handle with its own head, tail and cached size on a file that
    several handles may share, and the seek-and-read loops over that file.
 */
module ValueLogFile {
  import opened Wrappers
  import opened Bytes
  import opened LogCodec

  /** One pass of the loops of `get`, `recover` and `read_chunk_to_garbage_collect`. */
  method LoadRecord(file: seq<Byte>, pos: nat) returns (s: Step)
    ensures s == ReadRecord(file, pos)
  {
    hide FromLe, Buffer, Count;
    var cursor := pos;
    var bytesRead := Count(file, cursor, 4);
    if bytesRead == 0 {
      return End;
    }
    var keyLen := FromLe(Buffer(file, cursor, 4));
    cursor := cursor + bytesRead;

    bytesRead := Count(file, cursor, 4);
    if bytesRead == 0 {
      return Torn;
    }
    var valLen := FromLe(Buffer(file, cursor, 4));
    cursor := cursor + bytesRead;

    bytesRead := Count(file, cursor, 8);
    if bytesRead == 0 {
      return Torn;
    }
    var time := FromLe(Buffer(file, cursor, 8));
    cursor := cursor + bytesRead;

    bytesRead := Count(file, cursor, 1);
    if bytesRead == 0 {
      return Torn;
    }
    var tomb := Buffer(file, cursor, 1)[0] == 1;
    cursor := cursor + bytesRead;

    bytesRead := Count(file, cursor, keyLen);
    if bytesRead == 0 {
      return Torn;
    }
    var key := Buffer(file, cursor, keyLen);
    cursor := cursor + bytesRead;

    bytesRead := Count(file, cursor, valLen);
    if bytesRead == 0 {
      return Torn;
    }
    var value := Buffer(file, cursor, valLen);
    cursor := cursor + bytesRead;
    return Got(Record(key, value, time, tomb), cursor);
  }

  /** What a replay that already holds `done` and continues at `pos` will return. */
  function Continue(done: seq<Record>, rest: Result<seq<Record>>): (r: Result<seq<Record>>)
  {
    match rest
    case Err(e) => Err(e)
    case Ok(rs) => Ok(done + rs)
  }

  function ContinueChunk(done: seq<Record>, rest: Result<(seq<Record>, nat)>): (r: Result<(seq<Record>, nat)>)
  {
    match rest
    case Err(e) => Err(e)
    case Ok((rs, n)) => Ok((done + rs, n))
  }

  lemma ContinueMore(done: seq<Record>, rec: Record, rest: Result<seq<Record>>)
    ensures Continue(done, Continue([rec], rest)) == Continue(done + [rec], rest)
  {
    if rest.Ok? {
      assert done + ([rec] + rest.value) == done + [rec] + rest.value;
    }
  }

  lemma ContinueChunkMore(done: seq<Record>, rec: Record, rest: Result<(seq<Record>, nat)>)
    ensures ContinueChunk(done, ContinueChunk([rec], rest)) == ContinueChunk(done + [rec], rest)
  {
    if rest.Ok? {
      assert done + ([rec] + rest.value.0) == done + [rec] + rest.value.0;
    }
  }

  /** The file behind the handles. It is opened in append mode: every write goes to its end. */
  class LogFile {
    var bytes: seq<Byte>

    constructor (bytes: seq<Byte>)
      ensures this.bytes == bytes
    {
      this.bytes := bytes;
    }
  }

  class ValueLog {
    const file: LogFile
    var headOffset: nat
    var tailOffset: nat
    var size: nat

    /** The cached size is the size of the file. */
    ghost predicate InSync()
      reads this, file
    {
      size == |file.bytes|
    }

    constructor (file: LogFile)
      ensures this.file == file && InSync() && headOffset == 0 && tailOffset == 0
    {
      this.file := file;
      headOffset, tailOffset, size := 0, 0, |file.bytes|;
    }

    /** Writes the record at the end of the file and returns the cached size as its offset. For a
        handle in sync that is where the record is, the record reads back from there, and every
        record stored before keeps its place. */
    method Append(key: Key, value: Value, time: nat, tomb: bool) returns (offset: nat)
      modifies this`size, file
      ensures file.bytes == old(file.bytes) + Serialize(Record(key, value, time, tomb))
      ensures offset == old(size) && size == old(size) + |Serialize(Record(key, value, time, tomb))|
      ensures old(InSync()) ==> InSync()
      ensures old(InSync()) && WellFormed(Record(key, value, time, tomb)) ==>
                GetValue(file.bytes, offset) == Ok(Some((value, tomb)))
      ensures forall pos, s :: At(old(file.bytes), pos, s) ==> At(file.bytes, pos, s)
    {
      var r := Record(key, value, time, tomb);
      var data := Serialize(r);
      offset := size;
      ghost var before := file.bytes;
      file.bytes := file.bytes + data;
      size := size + |data|;
      forall pos, s | At(before, pos, s)
        ensures At(file.bytes, pos, s)
      {
        AtExtend(before, pos, s, data);
      }
      if old(InSync()) && WellFormed(r) {
        assert file.bytes == before + data + [];
        AtMiddle(before, data, []);
        hide ReadRecord, Serialize;
        ReadStored(file.bytes, offset, r);
      }
    }

    method Get(startOffset: nat) returns (r: Result<Option<(Value, bool)>>)
      ensures r == GetValue(file.bytes, startOffset)
    {
      var s := LoadRecord(file.bytes, startOffset);
      match s
      case End => r := Ok(None);
      case Torn => r := Err(UnexpectedEof);
      case Got(rec, _) => r := Ok(Some((rec.value, rec.tomb)));
    }

    method Recover(startOffset: nat) returns (r: Result<seq<Record>>)
      ensures r == ParseAll(file.bytes, startOffset)
    {
      hide ReadRecord;
      var bytes := file.bytes;
      var entries: seq<Record> := [];
      var pos := startOffset;
      assert Continue([], ParseAll(bytes, pos)) == ParseAll(bytes, pos) by {
        if ParseAll(bytes, pos).Ok? {
          assert [] + ParseAll(bytes, pos).value == ParseAll(bytes, pos).value;
        }
      }
      while true
        invariant ParseAll(bytes, startOffset) == Continue(entries, ParseAll(bytes, pos))
        decreases |bytes| - pos
      {
        var s := LoadRecord(bytes, pos);
        match s
        case End =>
          assert entries + [] == entries;
          return Ok(entries);
        case Torn => return Err(UnexpectedEof);
        case Got(rec, next) =>
          ContinueMore(entries, rec, ParseAll(bytes, next));
          entries := entries + [rec];
          pos := next;
      }
    }

    method ReadChunkToGarbageCollect(bytesToCollect: nat) returns (r: Result<(seq<Record>, nat)>)
      ensures r == ParseChunk(file.bytes, tailOffset, bytesToCollect, 0)
    {
      hide ReadRecord;
      var bytes := file.bytes;
      var entries: seq<Record> := [];
      var pos, total: nat := tailOffset, 0;
      assert ContinueChunk([], ParseChunk(bytes, pos, bytesToCollect, 0))
          == ParseChunk(bytes, pos, bytesToCollect, 0) by {
        if ParseChunk(bytes, pos, bytesToCollect, 0).Ok? {
          var c := ParseChunk(bytes, pos, bytesToCollect, 0).value;
          assert [] + c.0 == c.0;
        }
      }
      while true
        invariant ParseChunk(bytes, tailOffset, bytesToCollect, 0)
               == ContinueChunk(entries, ParseChunk(bytes, pos, bytesToCollect, total))
        decreases |bytes| - pos
      {
        var s := LoadRecord(bytes, pos);
        match s
        case End =>
          assert entries + [] == entries;
          return Ok((entries, total));
        case Torn => return Err(UnexpectedEof);
        case Got(rec, next) =>
          var total' := total + (next - pos);
          ContinueChunkMore(entries, rec, ParseChunk(bytes, next, bytesToCollect, total'));
          if total' >= bytesToCollect {
            return Ok((entries + [rec], total'));
          }
          entries := entries + [rec];
          pos, total := next, total';
      }
    }
  }

  /** The store and the garbage collector write through two handles on one file. Whatever the
      store appends after both handles were in sync, the next append of the collector returns the
      offset of the store's record, so reading at the collector's offset gives the store's value. */
  method AppendThroughTwoHandles(store: ValueLog, collector: ValueLog, r1: Record, r2: Record)
      returns (o1: nat, o2: nat)
    requires store != collector && store.file == collector.file
    requires store.InSync() && collector.InSync() && WellFormed(r1)
    modifies store, collector, store.file
    ensures o1 == o2 && !collector.InSync()
    ensures GetValue(store.file.bytes, o2) == Ok(Some((r1.value, r1.tomb)))
  {
    hide ReadRecord;
    ghost var before := store.file.bytes;
    o1 := store.Append(r1.key, r1.value, r1.time, r1.tomb);
    assert r1 == Record(r1.key, r1.value, r1.time, r1.tomb);
    assert store.file.bytes == before + Serialize(r1) + [];
    AtMiddle(before, Serialize(r1), []);
    assert At(store.file.bytes, |before|, Serialize(r1));
    o2 := collector.Append(r2.key, r2.value, r2.time, r2.tomb);
    ReadStored(store.file.bytes, o2, r1);
  }
}
