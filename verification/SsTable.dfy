/** An SSTable on disk: entries packed greedily into blocks of at most 4 KB, a sparse index with
    the last key and start offset of every block, and lookups that go through the index.
 */
module SsTable {
  import opened Wrappers
  import opened Bytes
  import opened Entries
  import LogCodec

  const BLOCK_SIZE: nat := 4096

  /** key length prefix, value offset, creation time, tombstone marker */
  const ENTRY_OVERHEAD: nat := 17

  function EntrySize(e: Entry): (n: nat)
    ensures n > 0
  {
    |e.key| + ENTRY_OVERHEAD
  }

  function SizeOf(es: seq<Entry>): (n: nat)
    ensures es != [] ==> n > 0
  {
    if es == [] then 0 else EntrySize(es[0]) + SizeOf(es[1..])
  }

  /** An entry as the file can hold it: a 32-bit value offset and a 64-bit time. */
  function Stored(e: Entry): (s: Entry)
  {
    e.(offset := e.offset % U32_LIMIT, time := e.time % U64_LIMIT)
  }

  function StoredAll(es: seq<Entry>): (s: seq<Entry>)
    ensures |s| == |es|
    ensures forall i | 0 <= i < |es| :: s[i] == Stored(es[i])
  {
    seq(|es|, i requires 0 <= i < |es| => Stored(es[i]))
  }

  function EntryTail(e: Entry): (s: seq<Byte>)
    ensures |s| == 13
  {
    ToLe(e.offset, 4) + ToLe(e.time, 8) + [LogCodec.Flag(e.tomb)]
  }

  function EntryBytes(e: Entry): (s: seq<Byte>)
    ensures |s| == EntrySize(e)
  {
    ToLe(|e.key|, 4) + e.key + EntryTail(e)
  }

  function DataBytes(es: seq<Entry>): (s: seq<Byte>)
    ensures |s| == SizeOf(es)
  {
    if es == [] then [] else EntryBytes(es[0]) + DataBytes(es[1..])
  }

  // ---------------------------------------------------------------------
  // Reading the data file

  datatype Step = End | Torn | Got(entry: Entry, next: nat)

  /** One pass of the loops of `load_entries` and `find_entry`. */
  function ReadEntry(file: seq<Byte>, pos: nat): (s: Step)
    ensures s.Got? ==> pos < s.next <= |file|
  {
    var n1 := Count(file, pos, 4);
    if n1 == 0 then End else
    var keyLen := FromLe(Buffer(file, pos, 4));
    var p1 := pos + n1;
    var n2 := Count(file, p1, keyLen);
    if n2 == 0 then Torn else
    ReadTail(file, p1 + n2, Buffer(file, p1, keyLen))
  }

  function ReadTail(file: seq<Byte>, pos: nat, key: Key): (s: Step)
    ensures s.Got? ==> pos < s.next <= |file|
    ensures !s.End?
  {
    var n3 := Count(file, pos, 4);
    if n3 == 0 then Torn else
    var p3 := pos + n3;
    var n4 := Count(file, p3, 8);
    if n4 == 0 then Torn else
    var p4 := p3 + n4;
    var n5 := Count(file, p4, 1);
    if n5 == 0 then Torn else
    Got(Entry(key, FromLe(Buffer(file, pos, 4)), FromLe(Buffer(file, p3, 8)), Buffer(file, p4, 1)[0] == 1), p4 + n5)
  }

  function LoadFrom(file: seq<Byte>, pos: nat): (r: Result<seq<Entry>>)
    decreases |file| - pos
  {
    match ReadEntry(file, pos)
    case End => Ok([])
    case Torn => Err(UnexpectedEof)
    case Got(e, next) =>
      match LoadFrom(file, next)
      case Err(err) => Err(err)
      case Ok(rest) => Ok([e] + rest)
  }

  /** The scan of `find_entry`: from a block to the end of the file. */
  function ScanFor(file: seq<Byte>, pos: nat, k: Key): (r: Result<Option<Entry>>)
    decreases |file| - pos
  {
    match ReadEntry(file, pos)
    case End => Ok(None)
    case Torn => Err(UnexpectedEof)
    case Got(e, next) => if e.key == k then Ok(Some(e)) else ScanFor(file, next, k)
  }

  lemma ReadStoredTail(file: seq<Byte>, pos: nat, e: Entry)
    requires At(file, pos, EntryTail(e))
    ensures ReadTail(file, pos, e.key) == Got(Stored(e), pos + 13)
  {
    var a, b, c := ToLe(e.offset, 4), ToLe(e.time, 8), [LogCodec.Flag(e.tomb)];
    AtSplit(file, pos, a + b, c);
    AtSplit(file, pos, a, b);
    AtRead(file, pos, a);
    AtRead(file, pos + 4, b);
    AtRead(file, pos + 12, c);
    Le32(e.offset);
    Le64(e.time);
  }

  lemma ReadStoredEntry(file: seq<Byte>, pos: nat, e: Entry)
    requires At(file, pos, EntryBytes(e)) && 0 < |e.key| < U32_LIMIT
    ensures ReadEntry(file, pos) == Got(Stored(e), pos + EntrySize(e))
  {
    hide ReadTail, EntryTail, ToLe, FromLe;
    var a := ToLe(|e.key|, 4);
    AtSplit(file, pos, a + e.key, EntryTail(e));
    AtSplit(file, pos, a, e.key);
    AtRead(file, pos, a);
    AtRead(file, pos + 4, e.key);
    Le32(|e.key|);
    ReadStoredTail(file, pos + 4 + |e.key|, e);
  }

  predicate KeysFit(es: seq<Entry>)
  {
    forall i | 0 <= i < |es| :: 0 < |es[i].key| < U32_LIMIT
  }

  lemma ReadAtEnd(file: seq<Byte>)
    ensures ReadEntry(file, |file|) == End
  {
  }

  /** What is read of a whole entry in any file, after the length and the key. */
  lemma EntryFields(file: seq<Byte>, pos: nat)
    requires ReadEntry(file, pos).Got? && pos + 4 <= |file|
    requires pos + 4 + FromLe(file[pos..pos + 4]) + 13 <= |file|
    ensures var e, p := ReadEntry(file, pos).entry, pos + 4 + FromLe(file[pos..pos + 4]);
            e.key == file[pos + 4..p] && e.offset == FromLe(file[p..p + 4]) &&
            e.time == FromLe(file[p + 4..p + 12]) && (e.tomb <==> file[p + 12] == 1)
  {
    hide FromLe, Buffer;
    LogCodec.BufferInside(file, pos, 4);
    var n := FromLe(file[pos..pos + 4]);
    LogCodec.BufferInside(file, pos + 4, n);
    LogCodec.BufferInside(file, pos + 4 + n, 4);
    LogCodec.BufferInside(file, pos + 8 + n, 8);
    LogCodec.BufferInside(file, pos + 16 + n, 1);
  }

  /** A scan that starts at the bytes of `es` and runs to the end of the file finds the entry of
      `es` for the key. */
  lemma {:induction false} ScanStored(before: seq<Byte>, es: seq<Entry>, k: Key)
    requires KeysFit(es)
    ensures ScanFor(before + DataBytes(es), |before|, k) == Ok(Find(StoredAll(es), k))
    decreases |es|
  {
    hide ReadEntry, EntryBytes, Stored;
    var file := before + DataBytes(es);
    if es == [] {
      assert file == before;
      ReadAtEnd(file);
    } else {
      var e, rest := es[0], es[1..];
      var before' := before + EntryBytes(e);
      assert file == before' + DataBytes(rest);
      AtMiddle(before, EntryBytes(e), DataBytes(rest));
      ReadStoredEntry(file, |before|, e);
      ScanStored(before', rest, k);
      assert StoredAll(es)[1..] == StoredAll(rest);
      StoredKey(e);
    }
  }

  lemma StoredKey(e: Entry)
    ensures Stored(e).key == e.key && Stored(e).tomb == e.tomb
  {
  }

  /** Loading a data file gives back the entries that were written. */
  lemma {:induction false} LoadStored(before: seq<Byte>, es: seq<Entry>)
    requires KeysFit(es)
    ensures LoadFrom(before + DataBytes(es), |before|) == Ok(StoredAll(es))
    decreases |es|
  {
    hide ReadEntry, EntryBytes, Stored;
    var file := before + DataBytes(es);
    if es == [] {
      assert file == before;
      ReadAtEnd(file);
    } else {
      var e, rest := es[0], es[1..];
      var before' := before + EntryBytes(e);
      assert file == before' + DataBytes(rest);
      AtMiddle(before, EntryBytes(e), DataBytes(rest));
      ReadStoredEntry(file, |before|, e);
      LoadStored(before', rest);
      assert StoredAll(es) == [Stored(e)] + StoredAll(rest);
    }
  }

  // ---------------------------------------------------------------------
  // The index

  datatype IndexEntry = IndexEntry(key: Key, handle: nat)

  function IndexEntryBytes(x: IndexEntry): (s: seq<Byte>)
    ensures |s| == |x.key| + 8
  {
    ToLe(|x.key|, 4) + x.key + ToLe(x.handle, 4)
  }

  function IndexBytes(xs: seq<IndexEntry>): (s: seq<Byte>)
  {
    if xs == [] then [] else IndexEntryBytes(xs[0]) + IndexBytes(xs[1..])
  }

  datatype IndexStep = IndexEnd | IndexTorn | IndexGot(item: IndexEntry, next: nat)

  function ReadIndexEntry(file: seq<Byte>, pos: nat): (s: IndexStep)
    ensures s.IndexGot? ==> pos < s.next <= |file|
  {
    var n1 := Count(file, pos, 4);
    if n1 == 0 then IndexEnd else
    var keyLen := FromLe(Buffer(file, pos, 4));
    var p1 := pos + n1;
    var n2 := Count(file, p1, keyLen);
    if n2 == 0 then IndexTorn else
    var p2 := p1 + n2;
    var n3 := Count(file, p2, 4);
    if n3 == 0 then IndexTorn else
    IndexGot(IndexEntry(Buffer(file, p1, keyLen), FromLe(Buffer(file, p2, 4))), p2 + n3)
  }

  /** `get_from_index`: the handle of the first block whose last key is not less than `k`. */
  function SearchIndex(file: seq<Byte>, pos: nat, k: Key): (r: Result<Option<nat>>)
    decreases |file| - pos
  {
    match ReadIndexEntry(file, pos)
    case IndexEnd => Ok(None)
    case IndexTorn => Err(UnexpectedEof)
    case IndexGot(x, next) => if Less(x.key, k) then SearchIndex(file, next, k) else Ok(Some(x.handle))
  }

  function FirstNotLess(xs: seq<IndexEntry>, k: Key): (r: Option<nat>)
  {
    if xs == [] then None
    else if Less(xs[0].key, k) then FirstNotLess(xs[1..], k)
    else Some(xs[0].handle % U32_LIMIT)
  }

  predicate IndexKeysFit(xs: seq<IndexEntry>)
  {
    forall i | 0 <= i < |xs| :: 0 < |xs[i].key| < U32_LIMIT
  }

  lemma ReadStoredIndexEntry(file: seq<Byte>, pos: nat, x: IndexEntry)
    requires At(file, pos, IndexEntryBytes(x)) && 0 < |x.key| < U32_LIMIT
    ensures ReadIndexEntry(file, pos) == IndexGot(x.(handle := x.handle % U32_LIMIT), pos + |x.key| + 8)
  {
    hide ToLe, FromLe;
    var a, c := ToLe(|x.key|, 4), ToLe(x.handle, 4);
    AtSplit(file, pos, a + x.key, c);
    AtSplit(file, pos, a, x.key);
    AtRead(file, pos, a);
    AtRead(file, pos + 4, x.key);
    AtRead(file, pos + 4 + |x.key|, c);
    Le32(|x.key|);
    Le32(x.handle);
  }

  lemma {:induction false} SearchStored(before: seq<Byte>, xs: seq<IndexEntry>, k: Key)
    requires IndexKeysFit(xs)
    ensures SearchIndex(before + IndexBytes(xs), |before|, k) == Ok(FirstNotLess(xs, k))
    decreases |xs|
  {
    hide ReadIndexEntry, IndexEntryBytes;
    var file := before + IndexBytes(xs);
    if xs == [] {
      assert file == before;
      IndexAtEnd(file);
    } else {
      var x, rest := xs[0], xs[1..];
      var before' := before + IndexEntryBytes(x);
      assert file == before' + IndexBytes(rest);
      AtMiddle(before, IndexEntryBytes(x), IndexBytes(rest));
      ReadStoredIndexEntry(file, |before|, x);
      SearchStored(before', rest, k);
    }
  }

  lemma IndexAtEnd(file: seq<Byte>)
    ensures ReadIndexEntry(file, |file|) == IndexEnd
  {
  }

  // ---------------------------------------------------------------------
  // Blocks

  type Blocks = seq<seq<Entry>>

  function Concat(bs: Blocks): (es: seq<Entry>)
  {
    if bs == [] then [] else bs[0] + Concat(bs[1..])
  }

  function LastKey(b: seq<Entry>): (k: Key)
    requires b != []
  {
    b[|b| - 1].key
  }

  predicate NonEmpty(bs: Blocks)
  {
    forall i | 0 <= i < |bs| :: bs[i] != []
  }

  /** The index of a list of blocks written from offset `start` on. */
  function IndexFor(bs: Blocks, start: nat): (xs: seq<IndexEntry>)
    requires NonEmpty(bs)
    ensures |xs| == |bs|
  {
    if bs == [] then []
    else [IndexEntry(LastKey(bs[0]), start)] + IndexFor(bs[1..], start + SizeOf(bs[0]))
  }

  lemma {:induction false} IndexKey(bs: Blocks, start: nat, i: nat)
    requires NonEmpty(bs) && i < |bs|
    ensures IndexFor(bs, start)[i].key == LastKey(bs[i])
    decreases |bs|
  {
    hide SizeOf;
    if i > 0 {
      IndexKey(bs[1..], start + SizeOf(bs[0]), i - 1);
    }
  }

  /** The loop of `write_to_file`: `cur` is the current block, `rest` the entries to come. */
  function Pack(cur: seq<Entry>, rest: seq<Entry>): (bs: Blocks)
    decreases |rest|
  {
    if rest == [] then (if cur == [] then [] else [cur])
    else if SizeOf(cur) + EntrySize(rest[0]) > BLOCK_SIZE then [cur] + Pack([rest[0]], rest[1..])
    else Pack(cur + [rest[0]], rest[1..])
  }

  predicate Fits(es: seq<Entry>)
  {
    forall i | 0 <= i < |es| :: EntrySize(es[i]) <= BLOCK_SIZE
  }

  lemma {:induction false} SizeOfConcat(a: seq<Entry>, b: seq<Entry>)
    ensures SizeOf(a + b) == SizeOf(a) + SizeOf(b)
    ensures DataBytes(a + b) == DataBytes(a) + DataBytes(b)
  {
    if a == [] {
      assert a + b == b;
    } else {
      assert (a + b)[1..] == a[1..] + b;
      SizeOfConcat(a[1..], b);
    }
  }

  lemma SizeOfOne(e: Entry)
    ensures SizeOf([e]) == EntrySize(e) && DataBytes([e]) == EntryBytes(e)
  {
    assert [e][1..] == [];
  }

  /** A packing of `es`: whole entries in order, non-empty blocks of at most 4 KB, and no block
      closed while the next entry would still have fitted. */
  predicate Packing(bs: Blocks, es: seq<Entry>)
  {
    Concat(bs) == es && NonEmpty(bs) &&
    (forall i | 0 <= i < |bs| :: SizeOf(bs[i]) <= BLOCK_SIZE) &&
    (forall i | 0 <= i < |bs| - 1 :: SizeOf(bs[i]) + EntrySize(bs[i + 1][0]) > BLOCK_SIZE)
  }

  lemma {:induction false} PackIsPacking(cur: seq<Entry>, rest: seq<Entry>)
    requires SizeOf(cur) <= BLOCK_SIZE && Fits(rest)
    ensures Packing(Pack(cur, rest), cur + rest)
    ensures cur != [] ==> Pack(cur, rest) != [] && cur <= Pack(cur, rest)[0]
    decreases |rest|
  {
    hide EntrySize, SizeOf;
    if rest == [] {
      assert cur + rest == cur;
      if cur != [] {
        assert Concat([cur]) == cur + Concat([]);
      }
    } else {
      var e, rest' := rest[0], rest[1..];
      SizeOfOne(e);
      if SizeOf(cur) + EntrySize(e) > BLOCK_SIZE {
        PackIsPacking([e], rest');
        var bs := Pack([e], rest');
        assert cur + rest == cur + ([e] + rest');
        assert Pack(cur, rest) == [cur] + bs;
        assert ([cur] + bs)[1..] == bs;
      } else {
        SizeOfConcat(cur, [e]);
        PackIsPacking(cur + [e], rest');
        assert cur + rest == cur + [e] + rest';
      }
    }
  }

  /** The packing rules leave no choice: a list of entries has at most one packing. */
  lemma {:induction false} PackingUnique(bs: Blocks, cs: Blocks, es: seq<Entry>)
    requires Packing(bs, es) && Packing(cs, es)
    ensures bs == cs
    decreases |bs|
  {
    hide EntrySize;
    EmptyPacking(bs, es);
    EmptyPacking(cs, es);
    if bs != [] {
      FirstBlockNotLonger(bs, cs, es);
      FirstBlockNotLonger(cs, bs, es);
      var n := |bs[0]|;
      assert bs[0] == es[..n] == cs[0];
      assert Concat(bs[1..]) == es[n..] == Concat(cs[1..]);
      PackingTail(bs, es);
      PackingTail(cs, es);
      PackingUnique(bs[1..], cs[1..], es[n..]);
      assert bs == [bs[0]] + bs[1..] && cs == [cs[0]] + cs[1..];
    }
  }

  lemma EmptyPacking(bs: Blocks, es: seq<Entry>)
    requires Packing(bs, es)
    ensures bs == [] <==> es == []
  {
    hide EntrySize, SizeOf;
    if bs != [] {
      assert |bs[0]| > 0;
    }
  }

  lemma PackingTail(bs: Blocks, es: seq<Entry>)
    requires Packing(bs, es) && bs != []
    ensures |bs[0]| <= |es| && Packing(bs[1..], es[|bs[0]|..])
  {
    hide EntrySize, SizeOf;
    var cs := bs[1..];
    assert es == bs[0] + Concat(cs);
    assert es[|bs[0]|..] == Concat(cs);
    forall i | 0 <= i < |cs| - 1
      ensures SizeOf(cs[i]) + EntrySize(cs[i + 1][0]) > BLOCK_SIZE
    {
      assert cs[i] == bs[i + 1] && cs[i + 1] == bs[i + 2];
    }
  }

  lemma FirstBlockNotLonger(bs: Blocks, cs: Blocks, es: seq<Entry>)
    requires Packing(bs, es) && Packing(cs, es) && bs != [] && cs != []
    ensures |bs[0]| <= |cs[0]|
  {
    hide EntrySize;
    var n := |cs[0]|;
    assert es == bs[0] + Concat(bs[1..]) == cs[0] + Concat(cs[1..]);
    if n < |bs[0]| {
      assert es[..n] == cs[0];
      assert |Concat(cs[1..])| > 0;
      assert cs[1..] != [];
      assert cs[1..][0] == cs[1];
      assert Concat(cs[1..]) == cs[1] + Concat(cs[1..][1..]);
      assert es[n] == cs[1][0];
      assert bs[0] == cs[0] + [es[n]] + bs[0][n + 1..];
      SizeOfConcat(cs[0] + [es[n]], bs[0][n + 1..]);
      SizeOfConcat(cs[0], [es[n]]);
      SizeOfOne(es[n]);
      assert false;
    }
  }

  // ---------------------------------------------------------------------
  // Lookup through the index

  /** `Index::get` followed by `Table::get`. */
  function Lookup(data: seq<Byte>, index: seq<Byte>, k: Key): (r: Result<Option<Entry>>)
  {
    match SearchIndex(index, 0, k)
    case Err(e) => Err(e)
    case Ok(None) => Ok(None)
    case Ok(Some(handle)) => ScanFor(data, handle, k)
  }

  /** A block whose last key is less than `k` holds no entry for `k`. */
  lemma SkippedBlock(b: seq<Entry>, rest: seq<Entry>, k: Key)
    requires b != [] && Sorted(b + rest) && Less(LastKey(b), k)
    ensures Find(StoredAll(b + rest), k) == Find(StoredAll(rest), k)
  {
    hide Stored, Less, Find;
    forall e | e in StoredAll(b)
      ensures e.key != k
    {
      var i :| 0 <= i < |b| && StoredAll(b)[i] == e;
      StoredKey(b[i]);
      if i < |b| - 1 {
        assert (b + rest)[i] == b[i] && (b + rest)[|b| - 1] == b[|b| - 1];
        LessTransitive(b[i].key, LastKey(b), k);
      }
      LessTrichotomy(b[i].key, k);
    }
    FindConcat(StoredAll(b), StoredAll(rest), k);
    assert StoredAll(b + rest) == StoredAll(b) + StoredAll(rest);
  }

  lemma {:induction false} LookupBlocks(before: seq<Byte>, bs: Blocks, k: Key)
    requires NonEmpty(bs) && Sorted(Concat(bs)) && KeysFit(Concat(bs))
    requires |before| + SizeOf(Concat(bs)) <= U32_LIMIT
    ensures var data := before + DataBytes(Concat(bs));
            match FirstNotLess(IndexFor(bs, |before|), k)
            case None => Find(StoredAll(Concat(bs)), k) == None
            case Some(handle) => ScanFor(data, handle, k) == Ok(Find(StoredAll(Concat(bs)), k))
    decreases |bs|
  {
    hide ScanFor, StoredAll, SizeOf, DataBytes, IndexFor, FirstNotLess, Find, Less, Concat;
    if bs == [] {
      NoBlocks(|before|, k);
    } else {
      var b, rest := bs[0], bs[1..];
      FirstBlock(bs, |before|, k);
      SizeOfConcat(b, Concat(rest));
      if Less(LastKey(b), k) {
        SkippedBlock(b, Concat(rest), k);
        assert Concat(rest) == Concat(bs)[|b|..];
        SortedTail(Concat(bs), |b|);
        var before' := before + DataBytes(b);
        assert before + DataBytes(Concat(bs)) == before' + DataBytes(Concat(rest));
        LookupBlocks(before', rest, k);
      } else {
        ScanStored(before, Concat(bs), k);
      }
    }
  }

  lemma NoBlocks(start: nat, k: Key)
    ensures FirstNotLess(IndexFor([], start), k) == None && Find(StoredAll(Concat([])), k) == None
  {
  }

  lemma FirstBlock(bs: Blocks, start: nat, k: Key)
    requires NonEmpty(bs) && bs != []
    ensures Concat(bs) == bs[0] + Concat(bs[1..]) && NonEmpty(bs[1..])
    ensures FirstNotLess(IndexFor(bs, start), k)
         == if Less(LastKey(bs[0]), k) then FirstNotLess(IndexFor(bs[1..], start + SizeOf(bs[0])), k)
            else Some(start % U32_LIMIT)
  {
    hide Less, SizeOf;
    var xs := IndexFor(bs, start);
    assert xs[0] == IndexEntry(LastKey(bs[0]), start) && xs[1..] == IndexFor(bs[1..], start + SizeOf(bs[0]));
  }

  /** For every sorted list of entries whose keys fit a block, and every key: the lookup through
      the written index and data files returns exactly the entry of the list for that key (with
      its offset cut to 32 bits), and nothing for a key the list does not hold. */
  lemma LookupRefinesFind(es: seq<Entry>, k: Key)
    requires Sorted(es) && Fits(es) && (forall i | 0 <= i < |es| :: es[i].key != [])
    requires SizeOf(es) <= U32_LIMIT
    ensures NonEmpty(Pack([], es))
    ensures Lookup(DataBytes(es), IndexBytes(IndexFor(Pack([], es), 0)), k) == Ok(Find(StoredAll(es), k))
  {
    hide ScanFor, SearchIndex, Stored, Pack, SizeOf, DataBytes;
    assert SizeOf([]) == 0 by { SizeOfEmpty(); }
    PackIsPacking([], es);
    assert [] + es == es;
    var bs := Pack([], es);
    var xs := IndexFor(bs, 0);
    assert KeysFit(es);
    assert IndexKeysFit(xs) by {
      forall i | 0 <= i < |xs|
        ensures 0 < |xs[i].key| < U32_LIMIT
      {
        InConcat(bs, i);
        IndexKey(bs, 0, i);
      }
    }
    SearchStored([], xs, k);
    assert [] + IndexBytes(xs) == IndexBytes(xs);
    LookupBlocks([], bs, k);
    assert [] + DataBytes(es) == DataBytes(es);
  }

  lemma SizeOfEmpty()
    ensures SizeOf([]) == 0
  {
  }

  lemma {:induction false} InConcat(bs: Blocks, i: nat)
    requires i < |bs| && bs[i] != []
    ensures bs[i][|bs[i]| - 1] in Concat(bs)
    decreases |bs|
  {
    if i > 0 {
      InConcat(bs[1..], i - 1);
    }
  }
}
