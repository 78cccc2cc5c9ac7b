/** Bytes, little-endian integers, the key order and buffered file reads.

    Every file of the engine is a sequence of bytes. Integers are written with
    `to_le_bytes`, so a value wider than its field loses its high bytes.
 */
module Bytes {

  type Byte = n: nat | n < 256

  type Key = seq<Byte>

  type Value = seq<Byte>

  // ---------------------------------------------------------------------
  // Little-endian integers

  /** 256 to the power `width`: one more than the largest integer of that many bytes. */
  function Limit(width: nat): (p: nat)
    ensures p > 0
  {
    if width == 0 then 1 else 256 * Limit(width - 1)
  }

  /** The `width` low bytes of `n`, least significant first (`to_le_bytes` after an `as` cast). */
  function ToLe(n: nat, width: nat): (s: seq<Byte>)
    ensures |s| == width
  {
    if width == 0 then [] else [n % 256] + ToLe(n / 256, width - 1)
  }

  /** `from_le_bytes`. */
  function FromLe(s: seq<Byte>): (n: nat)
  {
    if s == [] then 0 else s[0] + 256 * FromLe(s[1..])
  }

  lemma AtLeastOneMultiple(k: int, d: nat)
    requires k >= 1
    ensures k * d >= d
  {
  }

  lemma QuotientNotLarger(d: nat, q: nat, r: nat, q': nat, r': nat)
    requires r < d && r' < d && q * d + r == q' * d + r'
    ensures q <= q'
  {
    if q' < q {
      AtLeastOneMultiple(q - q', d);
      assert false;
    }
  }

  lemma DivModUnique(n: nat, d: nat, q: nat, r: nat)
    requires r < d && q * d + r == n
    ensures n % d == r
  {
    var q', r' := n / d, n % d;
    assert q' * d + r' == n;
    QuotientNotLarger(d, q, r, q', r');
    QuotientNotLarger(d, q', r', q, r);
  }

  lemma Regroup(q: nat, p: nat, r: nat, low: nat)
    ensures q * (256 * p) + (256 * r + low) == 256 * (q * p + r) + low
  {
  }

  lemma ModSplit(n: nat, p: nat)
    requires p > 0
    ensures n % (256 * p) == n % 256 + 256 * ((n / 256) % p)
  {
    var h := n / 256;
    var q, r := h / p, h % p;
    assert h == q * p + r;
    Regroup(q, p, r, n % 256);
    DivModUnique(n, 256 * p, q, 256 * r + n % 256);
  }

  /** Decoding an encoded integer gives it back reduced to the width of the field. */
  lemma {:induction false} LeRoundTrip(n: nat, width: nat)
    ensures FromLe(ToLe(n, width)) == n % Limit(width)
  {
    if width > 0 {
      LeRoundTrip(n / 256, width - 1);
      ModSplit(n, Limit(width - 1));
      assert ToLe(n, width)[1..] == ToLe(n / 256, width - 1);
    }
  }

  lemma {:induction false} FromLeBound(s: seq<Byte>)
    ensures FromLe(s) < Limit(|s|)
  {
    if s != [] {
      FromLeBound(s[1..]);
    }
  }

  const U32_LIMIT: nat := 0x1_0000_0000
  const U64_LIMIT: nat := 0x1_0000_0000_0000_0000

  lemma Limits()
    ensures Limit(4) == U32_LIMIT && Limit(8) == U64_LIMIT
  {
    assert Limit(1) == 256;
    assert Limit(2) == 65536;
    assert Limit(3) == 0x100_0000;
    assert Limit(4) == 0x1_0000_0000;
    assert Limit(5) == 0x100_0000_0000;
    assert Limit(6) == 0x1_0000_0000_0000;
    assert Limit(7) == 0x100_0000_0000_0000;
  }

  lemma Le32(n: nat)
    ensures FromLe(ToLe(n, 4)) == n % U32_LIMIT
  {
    LeRoundTrip(n, 4);
    Limits();
  }

  lemma Le64(n: nat)
    ensures FromLe(ToLe(n, 8)) == n % U64_LIMIT
  {
    LeRoundTrip(n, 8);
    Limits();
  }

  // ---------------------------------------------------------------------
  // The order of keys: `Vec<u8>::cmp`, which is lexicographic

  predicate Less(a: Key, b: Key)
  {
    b != [] && (a == [] || a[0] < b[0] || (a[0] == b[0] && Less(a[1..], b[1..])))
  }

  lemma {:induction false} LessTrichotomy(a: Key, b: Key)
    ensures Less(a, b) || a == b || Less(b, a)
    ensures !(Less(a, b) && Less(b, a))
    ensures Less(a, b) || Less(b, a) ==> a != b
  {
    if a != [] && b != [] {
      LessTrichotomy(a[1..], b[1..]);
      assert a == [a[0]] + a[1..] && b == [b[0]] + b[1..];
    }
  }

  /** At the first place where the two differ, the first key ends or has the smaller byte. */
  ghost predicate DiffersAt(a: Key, b: Key, n: nat)
  {
    n <= |a| && n < |b| && a[..n] == b[..n] && (n == |a| || a[n] < b[n])
  }

  lemma {:induction false} LessIff(a: Key, b: Key)
    ensures Less(a, b) <==> exists n: nat :: DiffersAt(a, b, n)
  {
    if b == [] {
    } else if a == [] || a[0] < b[0] {
      assert DiffersAt(a, b, 0);
    } else {
      LessIff(a[1..], b[1..]);
      if Less(a, b) {
        var n: nat :| DiffersAt(a[1..], b[1..], n);
        assert a[..n + 1] == [a[0]] + a[1..][..n] && b[..n + 1] == [b[0]] + b[1..][..n];
        assert DiffersAt(a, b, n + 1);
      }
      if n: nat :| DiffersAt(a, b, n) {
        assert n > 0 && a[..n][0] == b[..n][0];
        assert a[1..][..n - 1] == a[..n][1..] && b[1..][..n - 1] == b[..n][1..];
        assert DiffersAt(a[1..], b[1..], n - 1);
      }
    }
  }

  lemma {:induction false} LessTransitive(a: Key, b: Key, c: Key)
    requires Less(a, b) && Less(b, c)
    ensures Less(a, c)
  {
    if a != [] && a[0] == b[0] == c[0] {
      LessTransitive(a[1..], b[1..], c[1..]);
    }
  }

  // ---------------------------------------------------------------------
  // Reading a file into a buffer

  /** How many bytes a read of `n` bytes at `pos` delivers: fewer only when the file ends. */
  function Count(file: seq<Byte>, pos: nat, n: nat): (c: nat)
    ensures c <= n
    ensures c > 0 ==> pos + c <= |file|
  {
    if pos >= |file| then 0 else if n <= |file| - pos then n else |file| - pos
  }

  function Zeros(n: nat): (s: seq<Byte>)
    ensures |s| == n
    ensures forall i | 0 <= i < n :: s[i] == 0
  {
    seq(n, _ => 0)
  }

  /** The contents of a zero-initialised buffer of `n` bytes after that read. */
  function Buffer(file: seq<Byte>, pos: nat, n: nat): (s: seq<Byte>)
    ensures |s| == n
  {
    var c := Count(file, pos, n);
    (if c == 0 then [] else file[pos..pos + c]) + Zeros(n - c)
  }

  /** `s` is stored at `pos`. */
  predicate At(file: seq<Byte>, pos: nat, s: seq<Byte>)
  {
    pos + |s| <= |file| && file[pos..pos + |s|] == s
  }

  lemma AtSplit(file: seq<Byte>, pos: nat, a: seq<Byte>, b: seq<Byte>)
    requires At(file, pos, a + b)
    ensures At(file, pos, a) && At(file, pos + |a|, b)
  {
    var whole := file[pos..pos + |a + b|];
    assert whole[..|a|] == a && whole[|a|..] == b;
    assert file[pos..pos + |a|] == whole[..|a|];
    assert file[pos + |a|..pos + |a| + |b|] == whole[|a|..];
  }

  lemma AtRead(file: seq<Byte>, pos: nat, s: seq<Byte>)
    requires At(file, pos, s)
    ensures Count(file, pos, |s|) == |s| && Buffer(file, pos, |s|) == s
  {
  }

  lemma AtMiddle(a: seq<Byte>, b: seq<Byte>, c: seq<Byte>)
    ensures At(a + b + c, |a|, b)
  {
  }

  lemma AtExtend(file: seq<Byte>, pos: nat, s: seq<Byte>, more: seq<Byte>)
    requires At(file, pos, s)
    ensures At(file + more, pos, s)
  {
    assert (file + more)[pos..pos + |s|] == file[pos..pos + |s|];
  }
}
