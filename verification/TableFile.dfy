/** The writer of an SSTable and the loops that read one, as the engine runs them.
 */
module TableFile {
  import opened Wrappers
  import opened Bytes
  import opened Entries
  import opened SsTable

  class Block {
    var entries: seq<Entry>
    var size: nat
    var entryCount: nat

    ghost predicate Valid()
      reads this
    {
      size == SizeOf(entries) && size <= BLOCK_SIZE && entryCount == |entries|
    }

    constructor ()
      ensures Valid() && entries == []
    {
      entries, size, entryCount := [], 0, 0;
    }

    predicate IsFull(entrySize: nat)
      reads this
    {
      size + entrySize > BLOCK_SIZE
    }

    method SetEntry(e: Entry) returns (r: Result<()>)
      requires Valid()
      modifies this
      ensures Valid()
      ensures r.Ok? <==> SizeOf(old(entries)) + EntrySize(e) <= BLOCK_SIZE
      ensures r.Ok? ==> entries == old(entries) + [e]
      ensures r.Err? ==> r.error == BlockIsFull && entries == old(entries)
    {
      var entrySize := EntrySize(e);
      if IsFull(entrySize) {
        return Err(BlockIsFull);
      }
      SizeOfConcat(entries, [e]);
      SizeOfOne(e);
      entries := entries + [e];
      size := size + entrySize;
      entryCount := entryCount + 1;
      return Ok(());
    }
  }

  class Table {
    var entries: seq<Entry>
    var size: nat
    var data: seq<Byte>
    var index: seq<Byte>
    var smallest: Key
    var biggest: Key

    constructor (entries: seq<Entry>)
      ensures this.entries == entries && data == [] && index == []
    {
      this.entries := entries;
      size, data, index, smallest, biggest := 0, [], [], [], [];
    }

    /** Writes the table. It succeeds exactly when there is something to write and every entry
        fits a block, whatever the keys the store accepts; and then a lookup through the two
        files answers as the entries do, and every key lies between the recorded bounds. */
    method WriteToFile() returns (r: Result<()>)
      requires data == [] && index == [] && Sorted(entries)
      modifies this
      ensures entries == old(entries)
      ensures r.Ok? <==> entries != [] && Fits(entries)
      ensures entries == [] ==> r == Err(EntriesCannotBeEmptyDuringFlush)
      ensures entries != [] && !Fits(entries) ==> r == Err(BlockIsFull)
      ensures r.Err? ==> data == [] && index == []
      ensures r.Ok? ==> data == DataBytes(entries) && size == SizeOf(entries)
      ensures r.Ok? && SizeOf(entries) <= U32_LIMIT && (forall e | e in entries :: e.key != []) ==>
                forall k :: Lookup(data, index, k) == Ok(Find(StoredAll(entries), k))
      ensures r.Ok? ==> smallest == entries[0].key && biggest == entries[|entries| - 1].key
      ensures r.Ok? ==> forall e | e in entries :: !Less(e.key, smallest) && !Less(biggest, e.key)
    {
      hide SizeOf, DataBytes, IndexBytes, Lookup, StoredAll, Find, Pack, IndexFor;
      if entries == [] {
        return Err(EntriesCannotBeEmptyDuringFlush);
      }
      smallest, biggest := entries[0].key, entries[|entries| - 1].key;
      var packed := PackBlocks(entries);
      if packed.Err? {
        return Err(packed.error);
      }
      var items := WriteBlocks(packed.value);
      index := WriteIndex(items);
      r := Ok(());
      Bounds(entries);
      LookupAnswers(entries);
    }

    /** `write_block` for each block: its last key and the running size become an index entry. */
    method WriteBlocks(blocks: Blocks) returns (items: seq<IndexEntry>)
      requires NonEmpty(blocks) && data == []
      modifies this`data, this`size
      ensures data == DataBytes(Concat(blocks)) && size == SizeOf(Concat(blocks))
      ensures items == IndexFor(blocks, 0)
    {
      hide *;
      size := 0;
      items := [];
      var i := 0;
      WroteNothing();
      assert blocks[..0] == [];
      while i < |blocks|
        invariant 0 <= i <= |blocks|
        invariant NonEmpty(blocks[..i])
        invariant data == DataBytes(Concat(blocks[..i])) && size == |data|
        invariant items == IndexFor(blocks[..i], 0)
      {
        WroteOneMore(blocks, i);
        items := items + [IndexEntry(LastKey(blocks[i]), size)];
        var bytes := BlockBytes(blocks[i]);
        data := data + bytes;
        size := size + |bytes|;
        i := i + 1;
      }
      assert blocks[..i] == blocks;
    }

    method LoadEntriesFromFile() returns (r: Result<()>)
      modifies this
      ensures data == old(data) && index == old(index)
      ensures r.Ok? ==> LoadFrom(data, 0) == Ok(entries) && size == |data|
      ensures r.Err? ==> LoadFrom(data, 0) == Err(r.error) && entries == old(entries)
    {
      hide ReadEntry;
      var loaded: seq<Entry> := [];
      var pos := 0;
      while true
        invariant data == old(data) && index == old(index) && entries == old(entries)
        invariant pos <= |data|
        invariant LoadFrom(data, 0).Ok? <==> LoadFrom(data, pos).Ok?
        invariant LoadFrom(data, 0).Err? ==> LoadFrom(data, pos) == LoadFrom(data, 0)
        invariant LoadFrom(data, 0).Ok? ==> LoadFrom(data, 0).value == loaded + LoadFrom(data, pos).value
        decreases |data| - pos
      {
        var s := ReadEntry(data, pos);
        match s
        case End =>
          ReadEntryEnd(data, pos);
          entries, size := loaded, pos;
          assert loaded + [] == loaded;
          return Ok(());
        case Torn => return Err(UnexpectedEof);
        case Got(e, next) =>
          if LoadFrom(data, next).Ok? {
            assert loaded + ([e] + LoadFrom(data, next).value) == loaded + [e] + LoadFrom(data, next).value;
          }
          loaded := loaded + [e];
          pos := next;
      }
    }
  }

  lemma WroteNothing()
    ensures NonEmpty([]) && DataBytes(Concat([])) == [] && IndexFor([], 0) == []
  {
  }

  lemma WroteOneMore(blocks: Blocks, i: nat)
    requires NonEmpty(blocks) && i < |blocks|
    ensures NonEmpty(blocks[..i]) && NonEmpty(blocks[..i + 1]) && blocks[i] != []
    ensures DataBytes(Concat(blocks[..i + 1])) == DataBytes(Concat(blocks[..i])) + DataBytes(blocks[i])
    ensures IndexFor(blocks[..i + 1], 0)
         == IndexFor(blocks[..i], 0) + [IndexEntry(LastKey(blocks[i]), |DataBytes(Concat(blocks[..i]))|)]
  {
    hide DataBytes, IndexFor, SizeOf;
    IndexForAppend(blocks[..i], blocks[i], 0);
    ConcatAppend(blocks[..i], blocks[i]);
    SizeOfConcat(Concat(blocks[..i]), blocks[i]);
    assert blocks[..i + 1] == blocks[..i] + [blocks[i]];
  }

  lemma LookupAnswers(es: seq<Entry>)
    requires Sorted(es) && Fits(es)
    ensures NonEmpty(Pack([], es))
    ensures SizeOf(es) <= U32_LIMIT && (forall e | e in es :: e.key != []) ==>
              forall k :: Lookup(DataBytes(es), IndexBytes(IndexFor(Pack([], es), 0)), k) == Ok(Find(StoredAll(es), k))
  {
    hide Pack, SizeOf, Lookup, Stored;
    assert SizeOf([]) == 0 by { SizeOfEmpty(); }
    PackIsPacking([], es);
    if SizeOf(es) <= U32_LIMIT && (forall e | e in es :: e.key != []) {
      forall k
        ensures Lookup(DataBytes(es), IndexBytes(IndexFor(Pack([], es), 0)), k) == Ok(Find(StoredAll(es), k))
      {
        LookupRefinesFind(es, k);
      }
    }
  }

  lemma ReadEntryEnd(file: seq<Byte>, pos: nat)
    requires ReadEntry(file, pos) == End
    ensures pos >= |file|
  {
  }

  lemma Bounds(es: seq<Entry>)
    requires Sorted(es) && es != []
    ensures forall e | e in es :: !Less(e.key, es[0].key) && !Less(es[|es| - 1].key, e.key)
  {
    forall e | e in es
      ensures !Less(e.key, es[0].key) && !Less(es[|es| - 1].key, e.key)
    {
      var i :| 0 <= i < |es| && es[i] == e;
      LessTrichotomy(es[0].key, e.key);
      LessTrichotomy(e.key, es[|es| - 1].key);
    }
  }

  lemma {:induction false} ConcatAppend(bs: Blocks, b: seq<Entry>)
    ensures Concat(bs + [b]) == Concat(bs) + b
  {
    if bs == [] {
      assert [b][1..] == [];
      assert [] + [b] == [b];
    } else {
      assert (bs + [b])[1..] == bs[1..] + [b];
      ConcatAppend(bs[1..], b);
    }
  }

  lemma IndexForFirst(bs: Blocks, start: nat)
    requires NonEmpty(bs) && bs != []
    ensures NonEmpty(bs[1..])
    ensures IndexFor(bs, start) == [IndexEntry(LastKey(bs[0]), start)] + IndexFor(bs[1..], start + SizeOf(bs[0]))
    ensures Concat(bs) == bs[0] + Concat(bs[1..])
  {
    hide SizeOf;
  }

  lemma Shift(x: seq<IndexEntry>, xs: seq<IndexEntry>, y: seq<IndexEntry>)
    ensures x + (xs + y) == (x + xs) + y
  {
  }

  lemma {:induction false} IndexForAppend(bs: Blocks, b: seq<Entry>, start: nat)
    requires NonEmpty(bs) && b != []
    ensures NonEmpty(bs + [b])
    ensures IndexFor(bs + [b], start) == IndexFor(bs, start) + [IndexEntry(LastKey(b), start + SizeOf(Concat(bs)))]
    decreases |bs|
  {
    if bs == [] {
      assert [] + [b] == [b] && [b][1..] == [];
    } else {
      hide SizeOf, IndexFor, Concat, DataBytes, LastKey;
      var more := bs + [b];
      assert more[1..] == bs[1..] + [b] && more[0] == bs[0];
      IndexForFirst(bs, start);
      IndexForFirst(more, start);
      IndexForAppend(bs[1..], b, start + SizeOf(bs[0]));
      SizeOfConcat(bs[0], Concat(bs[1..]));
      Shift([IndexEntry(LastKey(bs[0]), start)], IndexFor(bs[1..], start + SizeOf(bs[0])),
            [IndexEntry(LastKey(b), start + SizeOf(Concat(bs)))]);
    }
  }

  /** One pass of the packing loop, when the next entry does not fit and when it does. */
  lemma PackStep(done: Blocks, cur: seq<Entry>, rest: seq<Entry>)
    requires rest != []
    ensures SizeOf(cur) + EntrySize(rest[0]) > BLOCK_SIZE ==>
              done + Pack(cur, rest) == (done + [cur]) + Pack([rest[0]], rest[1..])
    ensures SizeOf(cur) + EntrySize(rest[0]) <= BLOCK_SIZE ==>
              done + Pack(cur, rest) == done + Pack(cur + [rest[0]], rest[1..])
  {
    hide SizeOf, EntrySize;
    assert done + ([cur] + Pack([rest[0]], rest[1..])) == (done + [cur]) + Pack([rest[0]], rest[1..]);
  }

  lemma PackEnds(done: Blocks, cur: seq<Entry>)
    ensures done + Pack(cur, []) == if cur == [] then done else done + [cur]
  {
  }

  lemma FitsMore(es: seq<Entry>, i: nat)
    requires i < |es| && Fits(es[..i]) && EntrySize(es[i]) <= BLOCK_SIZE
    ensures Fits(es[..i + 1])
  {
    hide EntrySize;
    assert es[..i + 1] == es[..i] + [es[i]];
  }

  /** The packing loop: closes the current block when the next entry does not fit. */
  method PackBlocks(entries: seq<Entry>) returns (r: Result<Blocks>)
    ensures r.Ok? <==> Fits(entries)
    ensures r.Ok? ==> r.value == Pack([], entries) && Packing(r.value, entries)
    ensures r.Err? ==> r.error == BlockIsFull
  {
    hide EntrySize, SizeOf, Pack, Packing;
    SizeOfEmpty();
    var blocks: Blocks := [];
    var current := new Block();
    var i := 0;
    assert [] + Pack([], entries) == Pack([], entries) && entries[0..] == entries;
    while i < |entries|
      invariant 0 <= i <= |entries|
      invariant fresh(current) && current.Valid()
      invariant Fits(entries[..i])
      invariant Pack([], entries) == blocks + Pack(current.entries, entries[i..])
    {
      var e := entries[i];
      assert entries[i..][0] == e && entries[i..][1..] == entries[i + 1..];
      PackStep(blocks, current.entries, entries[i..]);
      if current.IsFull(EntrySize(e)) {
        blocks := blocks + [current.entries];
        current := new Block();
        assert [] + [e] == [e];
      }
      var res := current.SetEntry(e);
      if res.Err? {
        assert EntrySize(entries[i]) > BLOCK_SIZE;
        return Err(res.error);
      }
      FitsMore(entries, i);
      i := i + 1;
    }
    assert entries[..i] == entries && entries[i..] == [];
    PackEnds(blocks, current.entries);
    if current.entries != [] {
      blocks := blocks + [current.entries];
    }
    PackIsPacking([], entries);
    assert [] + entries == entries;
    return Ok(blocks);
  }

  /** `Block::write_to_file`: the entries of a block, one after the other. */
  method BlockBytes(b: seq<Entry>) returns (bytes: seq<Byte>)
    ensures bytes == DataBytes(b)
  {
    bytes := [];
    var i := 0;
    while i < |b|
      invariant 0 <= i <= |b|
      invariant bytes == DataBytes(b[..i])
    {
      assert b[..i + 1] == b[..i] + [b[i]];
      SizeOfConcat(b[..i], [b[i]]);
      SizeOfOne(b[i]);
      bytes := bytes + EntryBytes(b[i]);
      i := i + 1;
    }
    assert b[..i] == b;
  }

  lemma {:induction false} IndexBytesAppend(xs: seq<IndexEntry>, x: IndexEntry)
    ensures IndexBytes(xs + [x]) == IndexBytes(xs) + IndexEntryBytes(x)
  {
    if xs == [] {
      assert [] + [x] == [x] && [x][1..] == [];
    } else {
      assert (xs + [x])[1..] == xs[1..] + [x];
      IndexBytesAppend(xs[1..], x);
    }
  }

  method WriteIndex(items: seq<IndexEntry>) returns (bytes: seq<Byte>)
    ensures bytes == IndexBytes(items)
  {
    bytes := [];
    var i := 0;
    while i < |items|
      invariant 0 <= i <= |items|
      invariant bytes == IndexBytes(items[..i])
    {
      assert items[..i + 1] == items[..i] + [items[i]];
      IndexBytesAppend(items[..i], items[i]);
      bytes := bytes + IndexEntryBytes(items[i]);
      i := i + 1;
    }
    assert items[..i] == items;
  }

  method GetFromIndex(index: seq<Byte>, k: Key) returns (r: Result<Option<nat>>)
    ensures r == SearchIndex(index, 0, k)
  {
    hide ReadIndexEntry;
    var pos := 0;
    while true
      invariant SearchIndex(index, 0, k) == SearchIndex(index, pos, k)
      decreases |index| - pos
    {
      var s := ReadIndexEntry(index, pos);
      match s
      case IndexEnd => return Ok(None);
      case IndexTorn => return Err(UnexpectedEof);
      case IndexGot(x, next) =>
        if !Less(x.key, k) {
          return Ok(Some(x.handle));
        }
        pos := next;
    }
  }

  method FindEntry(data: seq<Byte>, offset: nat, k: Key) returns (r: Result<Option<Entry>>)
    ensures r == ScanFor(data, offset, k)
  {
    hide ReadEntry;
    var pos := offset;
    while true
      invariant ScanFor(data, offset, k) == ScanFor(data, pos, k)
      decreases |data| - pos
    {
      var s := ReadEntry(data, pos);
      match s
      case End => return Ok(None);
      case Torn => return Err(UnexpectedEof);
      case Got(e, next) =>
        if e.key == k {
          return Ok(Some(e));
        }
        pos := next;
    }
  }
}
