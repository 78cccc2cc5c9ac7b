/** The byte format of the value log and the three ways of reading it: one
    record at an offset, every record from an offset on, and a bounded chunk.
 */
module LogCodec {
  import opened Wrappers
  import opened Bytes

  datatype Record = Record(key: Key, value: Value, time: nat, tomb: bool)

  /** key length, value length, creation time, tombstone marker */
  const HEADER: nat := 17

  function RecordSize(r: Record): (n: nat)
  {
    HEADER + |r.key| + |r.value|
  }

  function Flag(b: bool): (x: Byte) { if b then 1 else 0 }

  function Header(r: Record): (s: seq<Byte>)
    ensures |s| == HEADER
  {
    ToLe(|r.key|, 4) + ToLe(|r.value|, 4) + ToLe(r.time, 8) + [Flag(r.tomb)]
  }

  function Serialize(r: Record): (s: seq<Byte>)
    ensures |s| == RecordSize(r)
  {
    Header(r) + r.key + r.value
  }

  /** What survives the fixed-width fields unchanged. */
  predicate WellFormed(r: Record)
  {
    0 < |r.key| < U32_LIMIT && 0 < |r.value| < U32_LIMIT && r.time < U64_LIMIT
  }

  predicate AllWellFormed(rs: seq<Record>)
  {
    forall i | 0 <= i < |rs| :: WellFormed(rs[i])
  }

  function SerializeAll(rs: seq<Record>): (s: seq<Byte>)
    ensures |s| == Size(rs)
  {
    if rs == [] then [] else SerializeAll(rs[..|rs| - 1]) + Serialize(rs[|rs| - 1])
  }

  function Size(rs: seq<Record>): (n: nat)
  {
    if rs == [] then 0 else Size(rs[..|rs| - 1]) + RecordSize(rs[|rs| - 1])
  }

  /** Where record `i` of the log starts; `i == |rs|` is the end of the log. */
  function OffsetOf(rs: seq<Record>, i: nat): (n: nat)
    requires i <= |rs|
  {
    Size(rs[..i])
  }

  // ---------------------------------------------------------------------
  // Reading one record

  datatype Step = End | Torn | Got(rec: Record, next: nat)

  /** One pass of the reading loop. A read that delivers nothing ends the scan when it is
      the first of a record, and is an unexpected end of file otherwise. A read that
      delivers part of a field is accepted, and the rest of the field stays zero. */
  function ReadRecord(file: seq<Byte>, pos: nat): (s: Step)
    ensures s.Got? ==> pos < s.next <= |file|
  {
    var n1 := Count(file, pos, 4);
    if n1 == 0 then End else
    var keyLen := FromLe(Buffer(file, pos, 4));
    var p1 := pos + n1;
    var n2 := Count(file, p1, 4);
    if n2 == 0 then Torn else
    var valLen := FromLe(Buffer(file, p1, 4));
    var p2 := p1 + n2;
    var n3 := Count(file, p2, 8);
    if n3 == 0 then Torn else
    var time := FromLe(Buffer(file, p2, 8));
    var p3 := p2 + n3;
    var n4 := Count(file, p3, 1);
    if n4 == 0 then Torn else
    var tomb := Buffer(file, p3, 1)[0] == 1;
    ReadBody(file, p3 + n4, keyLen, valLen, time, tomb)
  }

  function ReadBody(file: seq<Byte>, pos: nat, keyLen: nat, valLen: nat, time: nat, tomb: bool): (s: Step)
    ensures s.Got? ==> pos < s.next <= |file|
    ensures !s.End?
  {
    var n5 := Count(file, pos, keyLen);
    if n5 == 0 then Torn else
    var n6 := Count(file, pos + n5, valLen);
    if n6 == 0 then Torn else
    Got(Record(Buffer(file, pos, keyLen), Buffer(file, pos + n5, valLen), time, tomb), pos + n5 + n6)
  }

  /** The number that four bytes stand for, the least significant first. */
  function Number(a: nat, b: nat, c: nat, d: nat): (n: nat) { a + 256 * b + 65536 * c + 16777216 * d }

  /** The layout of a record: two lengths of 4 bytes, the time in 8, a byte that is one for a deletion, the key and
      the value. */
  lemma Layout(r: Record)
    requires WellFormed(r)
    ensures var s, n := Serialize(r), |r.key|;
            |s| == 17 + n + |r.value| && s[16] == (if r.tomb then 1 else 0) &&
            n == Number(s[0], s[1], s[2], s[3]) && |r.value| == Number(s[4], s[5], s[6], s[7]) &&
            FromLe(s[8..16]) == r.time && s[17..17 + n] == r.key && s[17 + n..] == r.value
  {
    hide ToLe, FromLe, Serialize, Number;
    var s := Serialize(r);
    Slices(r);
    FourBytes(s[0..4]);
    FourBytes(s[4..8]);
    LeFits(r);
  }

  lemma LeFits(r: Record)
    requires WellFormed(r)
    ensures FromLe(ToLe(|r.key|, 4)) == |r.key| && FromLe(ToLe(|r.value|, 4)) == |r.value|
    ensures FromLe(ToLe(r.time, 8)) == r.time
  {
    hide ToLe, FromLe;
    Le32(|r.key|);
    Le32(|r.value|);
    Le64(r.time);
  }

  lemma Slices(r: Record)
    ensures var s, n := Serialize(r), |r.key|;
            |s| == 17 + n + |r.value| && s[0..4] == ToLe(n, 4) && s[4..8] == ToLe(|r.value|, 4) &&
            s[8..16] == ToLe(r.time, 8) && s[16] == Flag(r.tomb) && s[17..17 + n] == r.key && s[17 + n..] == r.value
  {
    hide ToLe;
    var s := Serialize(r);
    assert s[..17] == Header(r);
    assert s[0..4] == s[..17][0..4] && s[4..8] == s[..17][4..8] && s[8..16] == s[..17][8..16] && s[16] == s[..17][16];
  }

  lemma FourBytes(s: seq<Byte>)
    requires |s| == 4
    ensures FromLe(s) == Number(s[0], s[1], s[2], s[3])
  {
    assert FromLe(s[1..]) == s[1] + 256 * FromLe(s[2..]) by {
      assert s[1..][1..] == s[2..];
    }
    assert FromLe(s[2..]) == s[2] + 256 * FromLe(s[3..]) by {
      assert s[2..][1..] == s[3..];
    }
    assert FromLe(s[3..]) == s[3];
  }

  /** The fixed part of a stored record is read back field by field. */
  lemma ReadHeader(file: seq<Byte>, pos: nat, r: Record)
    requires At(file, pos, Header(r))
    ensures ReadRecord(file, pos)
         == ReadBody(file, pos + HEADER, |r.key| % U32_LIMIT, |r.value| % U32_LIMIT, r.time % U64_LIMIT, r.tomb)
  {
    var a, b, c, d := ToLe(|r.key|, 4), ToLe(|r.value|, 4), ToLe(r.time, 8), [Flag(r.tomb)];
    AtSplit(file, pos, a + b + c, d);
    AtSplit(file, pos, a + b, c);
    AtSplit(file, pos, a, b);
    AtRead(file, pos, a);
    AtRead(file, pos + 4, b);
    AtRead(file, pos + 8, c);
    AtRead(file, pos + 16, d);
    Le32(|r.key|);
    Le32(|r.value|);
    Le64(r.time);
  }

  /** A stored record reads back as itself, exactly when its lengths and time fit their fields. */
  lemma ReadStored(file: seq<Byte>, pos: nat, r: Record)
    requires At(file, pos, Serialize(r))
    requires WellFormed(r)
    ensures ReadRecord(file, pos) == Got(r, pos + RecordSize(r))
  {
    hide ReadRecord, Header, ToLe, FromLe;
    AtSplit(file, pos, Header(r) + r.key, r.value);
    AtSplit(file, pos, Header(r), r.key);
    ReadHeader(file, pos, r);
    AtRead(file, pos + HEADER, r.key);
    AtRead(file, pos + HEADER + |r.key|, r.value);
  }

  /** Whatever is read has a value that its length field can count. */
  lemma ReadValueFits(file: seq<Byte>, pos: nat)
    ensures ReadRecord(file, pos).Got? ==> 0 < |ReadRecord(file, pos).rec.value| < U32_LIMIT
  {
    hide FromLe, Buffer;
    var n1 := Count(file, pos, 4);
    FromLeBound(Buffer(file, pos + n1, 4));
    Limits();
  }

  lemma BufferInside(file: seq<Byte>, pos: nat, n: nat)
    requires pos + n <= |file|
    ensures Buffer(file, pos, n) == file[pos..pos + n] && (n > 0 ==> Count(file, pos, n) == n)
  {
  }

  /** What is read of a whole header in any file: the two lengths, the time, and a deletion if and only if the
      last byte is one. */
  lemma HeaderFields(file: seq<Byte>, pos: nat)
    requires pos + 17 <= |file| && ReadRecord(file, pos).Got?
    ensures var r := ReadRecord(file, pos).rec;
            |r.key| == FromLe(file[pos..pos + 4]) && |r.value| == FromLe(file[pos + 4..pos + 8]) &&
            r.time == FromLe(file[pos + 8..pos + 16]) && (r.tomb <==> file[pos + 16] == 1)
  {
    hide FromLe, Buffer;
    BufferInside(file, pos, 4);
    BufferInside(file, pos + 4, 4);
    BufferInside(file, pos + 8, 8);
    BufferInside(file, pos + 16, 1);
  }

  lemma ReadAtEnd(file: seq<Byte>, pos: nat)
    requires pos >= |file|
    ensures ReadRecord(file, pos) == End
  {
  }

  // ---------------------------------------------------------------------
  // The three readers

  /** `VLogFs::get` */
  function GetValue(file: seq<Byte>, pos: nat): (r: Result<Option<(Value, bool)>>)
  {
    match ReadRecord(file, pos)
    case End => Ok(None)
    case Torn => Err(UnexpectedEof)
    case Got(rec, _) => Ok(Some((rec.value, rec.tomb)))
  }

  /** `VLogFs::recover` */
  function ParseAll(file: seq<Byte>, pos: nat): (r: Result<seq<Record>>)
    decreases |file| - pos
  {
    match ReadRecord(file, pos)
    case End => Ok([])
    case Torn => Err(UnexpectedEof)
    case Got(rec, next) =>
      match ParseAll(file, next)
      case Err(e) => Err(e)
      case Ok(rest) => Ok([rec] + rest)
  }

  /** `VLogFs::read_chunk_to_garbage_collect`: the records read and the bytes they took. */
  function ParseChunk(file: seq<Byte>, pos: nat, want: nat, taken: nat): (r: Result<(seq<Record>, nat)>)
    decreases |file| - pos
  {
    match ReadRecord(file, pos)
    case End => Ok(([], taken))
    case Torn => Err(UnexpectedEof)
    case Got(rec, next) =>
      var total := taken + (next - pos);
      if total >= want then Ok(([rec], total)) else
      match ParseChunk(file, next, want, total)
      case Err(e) => Err(e)
      case Ok((rest, n)) => Ok(([rec] + rest, n))
  }

  // ---------------------------------------------------------------------
  // Offsets

  lemma SizeAppend(rs: seq<Record>, r: Record)
    ensures Size(rs + [r]) == Size(rs) + RecordSize(r)
  {
    assert (rs + [r])[..|rs|] == rs;
  }

  lemma {:induction false} SizeConcat(a: seq<Record>, b: seq<Record>)
    ensures Size(a + b) == Size(a) + Size(b)
    ensures SerializeAll(a + b) == SerializeAll(a) + SerializeAll(b)
  {
    hide Serialize;
    if b == [] {
      assert a + b == a;
    } else {
      var b' := b[..|b| - 1];
      assert (a + b)[..|a + b| - 1] == a + b';
      SizeConcat(a, b');
    }
  }

  lemma OffsetNext(rs: seq<Record>, i: nat)
    requires i < |rs|
    ensures OffsetOf(rs, i + 1) == OffsetOf(rs, i) + RecordSize(rs[i])
  {
    assert rs[..i + 1][..i] == rs[..i];
  }

  lemma {:induction false} OffsetMonotone(rs: seq<Record>, i: nat, j: nat)
    requires i <= j <= |rs|
    ensures OffsetOf(rs, i) <= OffsetOf(rs, j)
    ensures i < j ==> OffsetOf(rs, i) + HEADER <= OffsetOf(rs, j)
    decreases j
  {
    if i < j {
      OffsetMonotone(rs, i, j - 1);
      OffsetNext(rs, j - 1);
    }
  }

  lemma OffsetInjective(rs: seq<Record>, i: nat, j: nat)
    requires i <= |rs| && j <= |rs| && OffsetOf(rs, i) == OffsetOf(rs, j)
    ensures i == j
  {
    if i < j {
      OffsetMonotone(rs, i, j);
    } else if j < i {
      OffsetMonotone(rs, j, i);
    }
  }

  /** Appending never moves a record. */
  lemma OffsetStable(rs: seq<Record>, more: seq<Record>, i: nat)
    requires i <= |rs|
    ensures OffsetOf(rs + more, i) == OffsetOf(rs, i)
  {
    assert (rs + more)[..i] == rs[..i];
  }

  lemma OffsetEnd(rs: seq<Record>)
    ensures OffsetOf(rs, |rs|) == Size(rs)
  {
    assert rs[..|rs|] == rs;
  }

  lemma SerializeSplit(rs: seq<Record>, i: nat)
    requires i < |rs|
    ensures SerializeAll(rs) == SerializeAll(rs[..i]) + Serialize(rs[i]) + SerializeAll(rs[i + 1..])
  {
    hide Serialize;
    var init := rs[..i + 1];
    assert rs == init + rs[i + 1..];
    SizeConcat(init, rs[i + 1..]);
    assert init[..i] == rs[..i];
  }

  /** Record `i` of a log is stored at its offset. */
  lemma StoredAt(rs: seq<Record>, i: nat)
    requires i < |rs|
    ensures At(SerializeAll(rs), OffsetOf(rs, i), Serialize(rs[i]))
  {
    hide Serialize, SerializeAll;
    SerializeSplit(rs, i);
    AtMiddle(SerializeAll(rs[..i]), Serialize(rs[i]), SerializeAll(rs[i + 1..]));
  }

  // ---------------------------------------------------------------------
  // Logs with a punched front

  /** The file holds the log `rs`, with the bytes before `hole` deallocated (they read as zero). */
  predicate Holds(file: seq<Byte>, rs: seq<Record>, hole: nat)
  {
    |file| == Size(rs) && hole <= |file| &&
    (forall i | 0 <= i < hole :: file[i] == 0) &&
    file[hole..] == SerializeAll(rs)[hole..]
  }

  lemma HoldsEnd(file: seq<Byte>, rs: seq<Record>, hole: nat)
    requires Holds(file, rs, hole)
    ensures ReadRecord(file, Size(rs)) == End
  {
    hide Size, SerializeAll;
    ReadAtEnd(file, |file|);
  }

  lemma HoldsAt(file: seq<Byte>, rs: seq<Record>, hole: nat, i: nat)
    requires Holds(file, rs, hole) && i < |rs| && hole <= OffsetOf(rs, i)
    ensures At(file, OffsetOf(rs, i), Serialize(rs[i]))
  {
    StoredAt(rs, i);
    var o, n := OffsetOf(rs, i), RecordSize(rs[i]);
    assert file[o..o + n] == file[hole..][o - hole..o - hole + n];
    assert SerializeAll(rs)[o..o + n] == SerializeAll(rs)[hole..][o - hole..o - hole + n];
  }

  /** A record at or after the hole reads back as itself. */
  lemma HoldsRead(file: seq<Byte>, rs: seq<Record>, hole: nat, i: nat)
    requires Holds(file, rs, hole) && AllWellFormed(rs) && i < |rs| && hole <= OffsetOf(rs, i)
    ensures ReadRecord(file, OffsetOf(rs, i)) == Got(rs[i], OffsetOf(rs, i + 1))
    ensures GetValue(file, OffsetOf(rs, i)) == Ok(Some((rs[i].value, rs[i].tomb)))
  {
    HoldsAt(file, rs, hole, i);
    ReadStored(file, OffsetOf(rs, i), rs[i]);
    OffsetNext(rs, i);
  }

  lemma ZeroFields(s: seq<Byte>)
    requires forall i | 0 <= i < |s| :: s[i] == 0
    ensures FromLe(s) == 0
  {
  }

  /** A record boundary inside the hole reads as a record with an empty key, which the reader
      takes for an unexpected end of file. */
  lemma HoleRead(file: seq<Byte>, rs: seq<Record>, hole: nat, i: nat, j: nat)
    requires Holds(file, rs, hole) && i < j <= |rs| && hole == OffsetOf(rs, j)
    ensures ReadRecord(file, OffsetOf(rs, i)) == Torn
  {
    OffsetMonotone(rs, i, j);
    var pos := OffsetOf(rs, i);
    assert pos + HEADER <= hole;
    ZeroFields(Buffer(file, pos, 4));
    assert FromLe(Buffer(file, pos, 4)) == 0;
    assert Count(file, pos, 4) == 4 && Count(file, pos + 4, 4) == 4;
    assert Count(file, pos + 8, 8) == 8 && Count(file, pos + 16, 1) == 1;
  }

  /** Replay from record boundary `i` returns exactly the records from `i` on when the boundary
      is not inside the hole, and fails otherwise. */
  lemma {:induction false} Replay(file: seq<Byte>, rs: seq<Record>, hole: nat, h: nat, i: nat)
    requires Holds(file, rs, hole) && AllWellFormed(rs)
    requires h <= |rs| && hole == OffsetOf(rs, h) && i <= |rs|
    ensures ParseAll(file, OffsetOf(rs, i)) == if i >= h then Ok(rs[i..]) else Err(UnexpectedEof)
    decreases |rs| - i
  {
    hide ReadRecord, Holds, SerializeAll, Size;
    if i < h {
      HoleRead(file, rs, hole, i, h);
    } else if i == |rs| {
      OffsetEnd(rs);
      HoldsEnd(file, rs, hole);
    } else {
      OffsetMonotone(rs, h, i);
      HoldsRead(file, rs, hole, i);
      Replay(file, rs, hole, h, i + 1);
      assert rs[i..] == [rs[i]] + rs[i + 1..];
    }
  }

  /** A chunk read from boundary `i` returns whole consecutive records up to a boundary `j`; its
      byte count is the distance between the two; and it stops at the first boundary that
      reaches the requested size, or at the end of the log. */
  lemma {:induction false} ChunkFrom(file: seq<Byte>, rs: seq<Record>, hole: nat, i: nat, want: nat, taken: nat)
    returns (j: nat)
    requires Holds(file, rs, hole) && AllWellFormed(rs) && i <= |rs| && hole <= OffsetOf(rs, i)
    ensures i <= j <= |rs|
    ensures OffsetOf(rs, i) <= OffsetOf(rs, j)
    ensures ParseChunk(file, OffsetOf(rs, i), want, taken)
         == Ok((rs[i..j], taken + (OffsetOf(rs, j) - OffsetOf(rs, i))))
    ensures i < |rs| ==> i < j
    ensures j < |rs| ==> taken + (OffsetOf(rs, j) - OffsetOf(rs, i)) >= want
    ensures i < j - 1 ==> taken + (OffsetOf(rs, j - 1) - OffsetOf(rs, i)) < want
    decreases |rs| - i
  {
    hide ReadRecord, Holds, SerializeAll, Size;
    if i == |rs| {
      OffsetEnd(rs);
      HoldsEnd(file, rs, hole);
      j := i;
      assert rs[i..j] == [];
    } else {
      HoldsRead(file, rs, hole, i);
      OffsetNext(rs, i);
      var total := taken + RecordSize(rs[i]);
      if total >= want {
        j := i + 1;
        assert rs[i..j] == [rs[i]];
      } else {
        j := ChunkFrom(file, rs, hole, i + 1, want, total);
        assert rs[i..j] == [rs[i]] + rs[i + 1..j];
      }
    }
  }

  /** The chunk at a boundary inside the hole cannot be read. */
  lemma ChunkInHole(file: seq<Byte>, rs: seq<Record>, hole: nat, i: nat, h: nat, want: nat)
    requires Holds(file, rs, hole) && i < h <= |rs| && hole == OffsetOf(rs, h)
    ensures ParseChunk(file, OffsetOf(rs, i), want, 0) == Err(UnexpectedEof)
  {
    HoleRead(file, rs, hole, i, h);
  }

  // ---------------------------------------------------------------------
  // A log cut short by a crash

  /** The value a reader sees when only the first `n` bytes of `v` reached the file. */
  function Padded(v: Value, n: nat): (s: Value)
    requires n <= |v|
    ensures |s| == |v|
  {
    v[..n] + Zeros(|v| - n)
  }

  /** The last record of a log, cut after `cut` bytes. If the cut is in the header or the key the
      reader reports an unexpected end of file. If it is in the value, the record is accepted and
      the missing bytes of its value read as zero. */
  lemma TornRecord(before: seq<Byte>, r: Record, cut: nat)
    requires WellFormed(r) && 0 < cut < RecordSize(r)
    ensures var file := before + Serialize(r)[..cut];
            ReadRecord(file, |before|) ==
            if cut <= HEADER + |r.key| then Torn
            else Got(r.(value := Padded(r.value, cut - HEADER - |r.key|)), |file|)
  {
    var file := before + Serialize(r)[..cut];
    var pos := |before|;
    if cut >= HEADER {
      TornBody(before, r, cut);
    } else {
      TornHeader(file, pos, cut);
    }
  }

  lemma TornHeader(file: seq<Byte>, pos: nat, cut: nat)
    requires 0 < cut < HEADER && |file| == pos + cut
    ensures ReadRecord(file, pos) == Torn
  {
    if cut <= 4 {
      assert Count(file, pos, 4) == cut;
    } else if cut <= 8 {
      assert Count(file, pos, 4) == 4;
      assert Count(file, pos + 4, 4) == cut - 4;
    } else {
      assert Count(file, pos, 4) == 4;
      assert Count(file, pos + 4, 4) == 4;
      assert Count(file, pos + 8, 8) == cut - 8;
    }
  }

  lemma TornBody(before: seq<Byte>, r: Record, cut: nat)
    requires WellFormed(r) && HEADER <= cut < RecordSize(r)
    ensures var file := before + Serialize(r)[..cut];
            ReadRecord(file, |before|) ==
            if cut <= HEADER + |r.key| then Torn
            else Got(r.(value := Padded(r.value, cut - HEADER - |r.key|)), |file|)
  {
    hide ReadRecord, Header, ReadBody;
    var rest := (r.key + r.value)[..cut - HEADER];
    assert Serialize(r) == Header(r) + (r.key + r.value);
    assert Serialize(r)[..cut] == Header(r) + rest;
    var file := before + Serialize(r)[..cut];
    assert file == before + Header(r) + rest;
    AtMiddle(before, Header(r), rest);
    ReadHeader(file, |before|, r);
    TornKeyAndValue(before + Header(r), r, rest);
  }

  lemma TornKeyAndValue(front: seq<Byte>, r: Record, rest: seq<Byte>)
    requires WellFormed(r) && |rest| < |r.key| + |r.value| && rest == (r.key + r.value)[..|rest|]
    ensures ReadBody(front + rest, |front|, |r.key|, |r.value|, r.time, r.tomb) ==
            if |rest| <= |r.key| then Torn
            else Got(r.(value := Padded(r.value, |rest| - |r.key|)), |front| + |rest|)
  {
    var file := front + rest;
    var body := |front|;
    if |rest| > |r.key| {
      var n := |rest| - |r.key|;
      assert rest == r.key + r.value[..n];
      assert file[body..body + |r.key|] == r.key;
      assert file[body + |r.key|..body + |r.key| + n] == r.value[..n];
    }
  }

  /** Replay of a log whose last record was cut short by a crash: it succeeds if and only if
      nothing of that record, or at least the first byte of its value, reached the file; and then
      the damaged record is delivered with a zero-padded value. */
  lemma {:induction false} TornReplay(rs: seq<Record>, r: Record, cut: nat, i: nat)
    requires AllWellFormed(rs) && WellFormed(r) && cut < RecordSize(r) && i <= |rs|
    ensures ParseAll(SerializeAll(rs) + Serialize(r)[..cut], OffsetOf(rs, i)) ==
            if cut == 0 then Ok(rs[i..])
            else if cut <= HEADER + |r.key| then Err(UnexpectedEof)
            else Ok(rs[i..] + [r.(value := Padded(r.value, cut - HEADER - |r.key|))])
    decreases |rs| - i
  {
    hide ReadRecord, SerializeAll, Serialize;
    var log := SerializeAll(rs);
    var file := log + Serialize(r)[..cut];
    if i == |rs| {
      OffsetEnd(rs);
      assert rs[i..] == [];
      ReadAtEnd(file, |file|);
      if cut > 0 {
        TornRecord(log, r, cut);
        if cut > HEADER + |r.key| {
          var r' := r.(value := Padded(r.value, cut - HEADER - |r.key|));
          assert ParseAll(file, |file|) == Ok([]);
          assert [r'] + [] == rs[i..] + [r'];
        }
      }
    } else {
      StoredAt(rs, i);
      AtExtend(log, OffsetOf(rs, i), Serialize(rs[i]), Serialize(r)[..cut]);
      ReadStored(file, OffsetOf(rs, i), rs[i]);
      OffsetNext(rs, i);
      TornReplay(rs, r, cut, i + 1);
      assert rs[i..] == [rs[i]] + rs[i + 1..];
      if cut > HEADER + |r.key| {
        var r' := r.(value := Padded(r.value, cut - HEADER - |r.key|));
        assert [rs[i]] + (rs[i + 1..] + [r']) == rs[i..] + [r'];
      }
    }
  }

  /** The longest value the store accepts is one byte too long for its length field: for every
      record whose key and value pass the store's size check, an appended record reads back as
      itself if and only if the value is shorter than 2^32 bytes. */
  lemma AcceptedValueReadsBack(before: seq<Byte>, r: Record, after: seq<Byte>)
    requires 0 < |r.key| <= 65536 && 0 < |r.value| <= U32_LIMIT && r.time < U64_LIMIT
    ensures var file := before + Serialize(r) + after;
            GetValue(file, |before|) == Ok(Some((r.value, r.tomb))) <==> |r.value| < U32_LIMIT
    ensures |r.value| == U32_LIMIT ==>
              GetValue(before + Serialize(r) + after, |before|) == Err(UnexpectedEof)
  {
    var file := before + Serialize(r) + after;
    assert At(file, |before|, Serialize(r));
    if |r.value| < U32_LIMIT {
      ReadStored(file, |before|, r);
    } else {
      AtSplit(file, |before|, Header(r) + r.key, r.value);
      AtSplit(file, |before|, Header(r), r.key);
      ReadHeader(file, |before|, r);
    }
  }
}
