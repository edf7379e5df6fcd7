/**
 Bytes, options and the fixed-width integer layouts every wire format uses.

 Go's `byte`, `uint16` and `uint32` are the integers of the same range. A mask or a shift by a
 constant is written as the division or remainder it computes: `b & 0x7F` is `b % 128`,
 `b >> 4` is `b / 16`, `w & 0x3FFF` is `w % 0x4000`.
 */
module Common {

  type byte = b: int | 0 <= b < 256
  type bytes = seq<byte>

  datatype Option<+T> = None | Some(value: T)

  /** The direction an event is filed under. */
  datatype Dir = Request | Response

  /** A statement captured up to a configured length; zero or less means unlimited. */
  function Truncated(s: bytes, limit: int): (r: bytes)
    ensures r <= s && (limit <= 0 || |s| <= limit ==> r == s) && (0 < limit < |s| ==> |r| == limit)
  {
    if limit > 0 && |s| > limit then s[..limit] else s
  }

  /** Index of the first zero byte, -1 if there is none. */
  function NulIndex(b: bytes): (i: int)
    ensures -1 <= i < |b|
    ensures i >= 0 ==> b[i] == 0 && 0 !in b[..i]
    ensures i < 0 ==> 0 !in b
  {
    if b == [] then -1
    else if b[0] == 0 then 0
    else
      assert b == [b[0]] + b[1..];
      var i := NulIndex(b[1..]);
      assert i >= 0 ==> b[..i + 1] == [b[0]] + b[1..][..i];
      if i < 0 then -1 else i + 1
  }

  lemma {:induction false} NulTerminated(s: bytes, rest: bytes)
    requires 0 !in s
    ensures NulIndex(s + [0] + rest) == |s|
  {
    var b := s + [0] + rest;
    if s != [] {
      assert b[1..] == s[1..] + [0] + rest;
      NulTerminated(s[1..], rest);
    }
  }

  /** Go's math.MaxInt on a 64-bit platform. */
  const MAX_INT: nat := 0x7FFF_FFFF_FFFF_FFFF

  /** Big-endian reads at an index. */
  function BE16(d: bytes, i: nat): (v: nat)
    requires i + 2 <= |d|
    ensures v < 0x1_0000
  {
    (d[i] as int) * 256 + d[i + 1]
  }

  function BE24(d: bytes, i: nat): (v: nat)
    requires i + 3 <= |d|
    ensures v < 0x100_0000
  {
    (d[i] as int) * 0x1_0000 + (d[i + 1] as int) * 256 + d[i + 2]
  }

  function BE32(d: bytes, i: nat): (v: nat)
    requires i + 4 <= |d|
    ensures v < 0x1_0000_0000
  {
    (d[i] as int) * 0x100_0000 + (d[i + 1] as int) * 0x1_0000 + (d[i + 2] as int) * 256 + d[i + 3]
  }

  /** Little-endian reads at an index. */
  function LE16(d: bytes, i: nat): (v: nat)
    requires i + 2 <= |d|
    ensures v < 0x1_0000
  {
    d[i] + (d[i + 1] as int) * 256
  }

  function LE24(d: bytes, i: nat): (v: nat)
    requires i + 3 <= |d|
    ensures v < 0x100_0000
  {
    d[i] + (d[i + 1] as int) * 256 + (d[i + 2] as int) * 0x1_0000
  }

  function LE32(d: bytes, i: nat): (v: nat)
    requires i + 4 <= |d|
    ensures v < 0x1_0000_0000
  {
    d[i] + (d[i + 1] as int) * 256 + (d[i + 2] as int) * 0x1_0000 + (d[i + 3] as int) * 0x100_0000
  }

  /** The writers the readers invert. */
  function PutBE16(v: nat): (d: bytes)
    requires v < 0x1_0000
    ensures |d| == 2 && BE16(d, 0) == v
  {
    [v / 256, v % 256]
  }

  function PutBE24(v: nat): (d: bytes)
    requires v < 0x100_0000
    ensures |d| == 3 && BE24(d, 0) == v
  {
    PutBE16(v / 256) + [v % 256]
  }

  function PutBE32(v: nat): (d: bytes)
    requires v < 0x1_0000_0000
    ensures |d| == 4 && BE32(d, 0) == v
  {
    PutBE24(v / 256) + [v % 256]
  }

  function PutLE16(v: nat): (d: bytes)
    requires v < 0x1_0000
    ensures |d| == 2 && LE16(d, 0) == v
  {
    [v % 256, v / 256]
  }

  function PutLE24(v: nat): (d: bytes)
    requires v < 0x100_0000
    ensures |d| == 3 && LE24(d, 0) == v
  {
    [v % 256] + PutLE16(v / 256)
  }

  function PutLE32(v: nat): (d: bytes)
    requires v < 0x1_0000_0000
    ensures |d| == 4 && LE32(d, 0) == v
  {
    [v % 256] + PutLE24(v / 256)
  }

  lemma SubSlice(d: bytes, a: nat, b: nat, i: nat, j: nat)
    requires a <= b <= |d| && i <= j <= b - a
    ensures d[a..b][i..j] == d[a + i..a + j]
  {
    var x, y := d[a..b][i..j], d[a + i..a + j];
    assert |x| == |y| == j - i;
    forall k | 0 <= k < j - i ensures x[k] == y[k] {
      assert x[k] == d[a..b][i + k] == d[a + (i + k)];
      assert y[k] == d[a + i + k];
    }
  }

  /** A number written somewhere is read there. */
  lemma BE16Written(d: bytes, i: nat, v: nat)
    requires v < 0x1_0000 && i + 2 <= |d| && d[i..i + 2] == PutBE16(v)
    ensures BE16(d, i) == v
  {
    var w := d[i..i + 2];
    assert forall k :: 0 <= k < 2 ==> d[i + k] == w[k];
  }

  lemma BE24Written(d: bytes, i: nat, v: nat)
    requires v < 0x100_0000 && i + 3 <= |d| && d[i..i + 3] == PutBE24(v)
    ensures BE24(d, i) == v
  {
    var w := d[i..i + 3];
    assert forall k :: 0 <= k < 3 ==> d[i + k] == w[k];
  }

  lemma BE32Written(d: bytes, i: nat, v: nat)
    requires v < 0x1_0000_0000 && i + 4 <= |d| && d[i..i + 4] == PutBE32(v)
    ensures BE32(d, i) == v
  {
    var w := d[i..i + 4];
    assert forall k :: 0 <= k < 4 ==> d[i + k] == w[k];
  }

  lemma LE24Written(d: bytes, i: nat, v: nat)
    requires v < 0x100_0000 && i + 3 <= |d| && d[i..i + 3] == PutLE24(v)
    ensures LE24(d, i) == v
  {
    var w := d[i..i + 3];
    assert forall k :: 0 <= k < 3 ==> d[i + k] == w[k];
  }

  lemma LE32Written(d: bytes, i: nat, v: nat)
    requires v < 0x1_0000_0000 && i + 4 <= |d| && d[i..i + 4] == PutLE32(v)
    ensures LE32(d, i) == v
  {
    var w := d[i..i + 4];
    assert forall k :: 0 <= k < 4 ==> d[i + k] == w[k];
  }

  /** And what is read somewhere is what would be written there. */
  lemma BE32Back(d: bytes, i: nat)
    requires i + 4 <= |d|
    ensures PutBE32(BE32(d, i)) == d[i..i + 4]
  {
    var v := BE32(d, i);
    assert v / 256 == (d[i] as int) * 0x1_0000 + (d[i + 1] as int) * 256 + d[i + 2] && v % 256 == d[i + 3];
    assert v / 256 / 256 == (d[i] as int) * 256 + d[i + 1];
  }

  lemma LE24Back(d: bytes, i: nat)
    requires i + 3 <= |d|
    ensures PutLE24(LE24(d, i)) == d[i..i + 3]
  {
    var v := LE24(d, i);
    assert v / 256 == d[i + 1] + (d[i + 2] as int) * 256 && v % 256 == d[i];
  }

  lemma LE32Back(d: bytes, i: nat)
    requires i + 4 <= |d|
    ensures PutLE32(LE32(d, i)) == d[i..i + 4]
  {
    var v := LE32(d, i);
    assert v / 256 == d[i + 1] + (d[i + 2] as int) * 256 + (d[i + 3] as int) * 0x1_0000 && v % 256 == d[i];
    assert v / 256 / 256 == d[i + 2] + (d[i + 3] as int) * 256;
  }

  /** Concatenation of a list of byte strings. */
  function Concat(parts: seq<bytes>): bytes {
    if parts == [] then [] else parts[0] + Concat(parts[1..])
  }

  lemma {:induction false} ConcatAppend(a: seq<bytes>, b: seq<bytes>)
    ensures Concat(a + b) == Concat(a) + Concat(b)
  {
    if a == [] {
      assert a + b == b;
    } else {
      assert (a + b)[1..] == a[1..] + b;
      ConcatAppend(a[1..], b);
    }
  }

  // ------------------------------------------------------------------ tagged entries

  /** An entry of a list in which a later entry of a kind overrides the earlier ones. */
  datatype Entry<K> = Entry(kind: K, data: bytes)

  /** The data of the last entry of a kind; empty when there is none. */
  function LastData<K(==)>(entries: seq<Entry<K>>, kind: K): bytes {
    if entries == [] then []
    else if entries[|entries| - 1].kind == kind then entries[|entries| - 1].data
    else LastData(entries[..|entries| - 1], kind)
  }

  lemma LastDataNone<K>()
    ensures forall kind: K :: LastData([], kind) == []
  {}

  lemma LastDataSnoc<K>(entries: seq<Entry<K>>, entry: Entry<K>)
    ensures forall kind: K ::
      LastData(entries + [entry], kind) == if entry.kind == kind then entry.data else LastData(entries, kind)
  {
    assert (entries + [entry])[..|entries|] == entries;
  }
}
