/** The byte layout of a clock partition (base/sharded_sequence_clock.go:397-416): a two-byte index, a one-byte
    sequence size, then one big-endian sequence of 2 * size bytes per vbucket. */
module ClockPartitionLayout {
  import opened Numbers
  import opened BigEndian

  const META_SIZE: nat := 3
  const MAX_VBUCKETS: nat := 1024

  /** The largest sequence stored at each size. At size 3 that is less than six bytes could hold. */
  function MaxSequence(size: nat): nat
    requires 1 <= size <= 4
  {
    if size == 1 then 0xFFFF
    else if size == 2 then 0xFFFF_FFFF
    else if size == 3 then 0xFFFF_FFFF_0000
    else MAX_UINT64
  }

  function U16(x: nat): (r: nat)
    ensures r <= 0xFFFF
  {
    x % 0x1_0000
  }

  /** Where the i-th sequence starts. */
  function Offset(size: nat, i: nat): (offset: nat)
    ensures offset >= META_SIZE
  {
    if i == 0 then META_SIZE else Offset(size, i - 1) + 2 * size
  }

  lemma {:induction false} OffsetIs(size: nat, i: nat)
    ensures Offset(size, i) == META_SIZE + 2 * size * i
  {
    if i > 0 {
      OffsetIs(size, i - 1);
    }
  }

  /** The same, as it is computed in 16 bits. */
  function StoredOffset(size: nat, i: nat): nat {
    U16(META_SIZE + U16(U16(2 * size) * i))
  }

  lemma {:induction false} OffsetSteps(size: nat, i: nat, j: nat)
    requires i <= j
    ensures Offset(size, i) <= Offset(size, j)
    ensures i < j ==> Offset(size, i) + 2 * size <= Offset(size, j)
  {
    if i < j {
      OffsetSteps(size, i, j - 1);
    }
  }

  lemma {:induction false} OffsetGrows(small: nat, large: nat, i: nat)
    requires small <= large
    ensures Offset(small, i) <= Offset(large, i)
  {
    if i > 0 {
      OffsetGrows(small, large, i - 1);
    }
  }

  /** Up to 1024 vbuckets no 16-bit offset wraps, not even before the division in a resize. */
  lemma NoWrap(size: nat, i: nat)
    requires 1 <= size <= 4 && i <= MAX_VBUCKETS
    ensures Offset(size, i) <= 0xFFFF
    ensures StoredOffset(size, i) == Offset(size, i)
    ensures size < 4 ==> (Offset(size, i) - META_SIZE) * 4 <= 0xFFFF
  {
    OffsetIs(size, i);
    SizeTimes(size, i);
    var x: nat := 2 * size * i;
    U16Plain(2 * size);
    U16Plain(x);
    U16Plain(META_SIZE + x);
  }

  lemma SizeTimes(size: nat, i: nat)
    requires 1 <= size <= 4 && i <= MAX_VBUCKETS
    ensures 2 * size * i <= 8 * MAX_VBUCKETS
    ensures size < 4 ==> 2 * size * i <= 6 * MAX_VBUCKETS
  {
    if size == 1 {
    } else if size == 2 {
    } else if size == 3 {
    } else {
      assert size == 4;
    }
  }

  /** The offset that a resize computes is the offset at the new size. */
  lemma Rescaled(size: nat, newSize: nat, i: nat)
    requires 1 <= size < newSize <= 4 && i <= MAX_VBUCKETS
    ensures U16(U16(Offset(size, i) - META_SIZE) * newSize) / size + META_SIZE == Offset(newSize, i)
  {
    NoWrap(size, i);
    var x: nat := Offset(size, i) - META_SIZE;
    var y: nat := Offset(newSize, i) - META_SIZE;
    U16Plain(x);
    CrossProduct(size, newSize, i);
    TimesAtMost(x, newSize);
    U16Plain(x * newSize);
    DivideBack(y, size);
  }

  lemma U16Plain(x: nat)
    requires x <= 0xFFFF
    ensures U16(x) == x
  {
  }

  lemma TimesAtMost(x: nat, n: nat)
    requires x * 4 <= 0xFFFF && n <= 4
    ensures x * n <= 0xFFFF
  {
    assert x * 4 == x * n + x * (4 - n);
  }

  lemma CrossProduct(a: nat, b: nat, i: nat)
    ensures (Offset(a, i) - META_SIZE) * b == (Offset(b, i) - META_SIZE) * a
  {
    OffsetIs(a, i);
    OffsetIs(b, i);
    Reorder(a, b, i);
  }

  lemma Reorder(a: nat, b: nat, i: nat)
    ensures (2 * a * i) * b == (2 * b * i) * a
  {
  }

  lemma DivideBack(y: nat, d: nat)
    requires 1 <= d <= 4
    ensures (y * d) / d == y
  {
    if d == 1 {
    } else if d == 2 {
    } else if d == 3 {
    } else {
      assert d == 4;
    }
  }

  /** What a buffer of `count` sequences grows by when each grows by d. */
  lemma {:induction false} OffsetDifference(size: nat, d: nat, count: nat)
    ensures Offset(size + d, count) - Offset(size, count) == Offset(d, count) - META_SIZE
  {
    if count > 0 {
      OffsetDifference(size, d, count - 1);
    }
  }

  /** ... as it is computed in 16 bits. */
  lemma GrowthFits(d: nat, count: nat)
    requires 1 <= d <= 3 && count <= MAX_VBUCKETS
    ensures U16(U16(count * 2) * d) == Offset(d, count) - META_SIZE
  {
    U16Plain(count * 2);
    TimesAtMost(count * 2, d);
    U16Plain(count * 2 * d);
    OffsetIs(d, count);
    assert count * 2 * d == 2 * d * count;
  }

  function Slot(value: seq<Byte>, size: nat, i: nat): (s: seq<Byte>)
    requires Offset(size, i) + 2 * size <= |value|
    ensures |s| == 2 * size
  {
    value[Offset(size, i)..Offset(size, i) + 2 * size]
  }

  /** The bytes stand for an index and one sequence per vbucket. */
  ghost predicate Represents(value: seq<Byte>, index: nat, size: nat, clocks: seq<nat>) {
    && 1 <= size <= 4
    && |value| == Offset(size, |clocks|)
    && value[..2] == Encode(index, 2) && value[2] == size
    && forall i :: 0 <= i < |clocks| ==> clocks[i] <= MaxSequence(size) && SlotHolds(value, size, i, clocks[i])
  }

  ghost predicate SlotHolds(value: seq<Byte>, size: nat, i: nat, v: nat) {
    Offset(size, i) + 2 * size <= |value| && Slot(value, size, i) == Encode(v, 2 * size)
  }

  lemma SlotInside(size: nat, i: nat, n: nat)
    requires i < n
    ensures Offset(size, i) + 2 * size <= Offset(size, n)
  {
    OffsetSteps(size, i, n);
  }

  /** What is stored at a size can be read back. */
  lemma MaxFits(size: nat)
    requires 1 <= size <= 4
    ensures MaxSequence(size) < Pow256(2 * size)
  {
    assert Pow256(1) == 256 && Pow256(2) == 0x1_0000;
    assert Pow256(3) == 0x100_0000 && Pow256(4) == 0x1_0000_0000;
    assert Pow256(5) == 0x100_0000_0000 && Pow256(6) == 0x1_0000_0000_0000;
    assert Pow256(7) == 0x100_0000_0000_0000 && Pow256(8) == 0x1_0000_0000_0000_0000;
  }

  lemma ReadBack(v: nat, size: nat)
    requires 1 <= size <= 4 && v <= MaxSequence(size)
    ensures Decode(Encode(v, 2 * size)) == v
  {
    MaxFits(size);
    RoundTrip(v, 2 * size);
  }

  /** Overwriting a stretch of bytes. */
  function Overwrite(value: seq<Byte>, offset: nat, bytes: seq<Byte>): (r: seq<Byte>)
    requires offset + |bytes| <= |value|
    ensures |r| == |value|
  {
    value[..offset] + bytes + value[offset + |bytes|..]
  }

  lemma OverwrittenParts(value: seq<Byte>, offset: nat, bytes: seq<Byte>)
    requires offset + |bytes| <= |value|
    ensures var r := Overwrite(value, offset, bytes);
      && r[..offset] == value[..offset]
      && r[offset..offset + |bytes|] == bytes
      && r[offset + |bytes|..] == value[offset + |bytes|..]
  {
  }

  /** A slot is left alone by a write elsewhere. */
  lemma SlotKept(value: seq<Byte>, offset: nat, bytes: seq<Byte>, size: nat, i: nat, v: nat)
    requires offset + |bytes| <= |value| && SlotHolds(value, size, i, v)
    requires offset + |bytes| <= Offset(size, i) || Offset(size, i) + 2 * size <= offset
    ensures SlotHolds(Overwrite(value, offset, bytes), size, i, v)
  {
    var r := Overwrite(value, offset, bytes);
    OverwrittenParts(value, offset, bytes);
    var at, end := Offset(size, i), offset + |bytes|;
    if at + 2 * size <= offset {
      SliceOfFront(r, offset, at, 2 * size);
      SliceOfFront(value, offset, at, 2 * size);
    } else {
      SliceOfBack(r, end, at, 2 * size);
      SliceOfBack(value, end, at, 2 * size);
    }
  }

  lemma SliceOfFront(s: seq<Byte>, cut: nat, at: nat, n: nat)
    requires at + n <= cut <= |s|
    ensures s[at..at + n] == s[..cut][at..at + n]
  {
  }

  lemma SliceOfBack(s: seq<Byte>, cut: nat, at: nat, n: nat)
    requires cut <= at && at + n <= |s|
    ensures s[at..at + n] == s[cut..][at - cut..at - cut + n]
  {
  }

  lemma SlotWritten(value: seq<Byte>, size: nat, i: nat, v: nat)
    requires Offset(size, i) + 2 * size <= |value|
    ensures SlotHolds(Overwrite(value, Offset(size, i), Encode(v, 2 * size)), size, i, v)
  {
    OverwrittenParts(value, Offset(size, i), Encode(v, 2 * size));
  }

  /** Writing one sequence changes that sequence only. */
  lemma SetRepresents(value: seq<Byte>, index: nat, size: nat, clocks: seq<nat>, i: nat, v: nat)
    requires Represents(value, index, size, clocks) && i < |clocks| && v <= MaxSequence(size)
    ensures Offset(size, i) + 2 * size <= |value|
    ensures Represents(Overwrite(value, Offset(size, i), Encode(v, 2 * size)), index, size, clocks[i := v])
  {
    SlotInside(size, i, |clocks|);
    SlotWritten(value, size, i, v);
    MetaKept(value, Offset(size, i), Encode(v, 2 * size));
    forall j | 0 <= j < |clocks| && j != i
      ensures SlotHolds(Overwrite(value, Offset(size, i), Encode(v, 2 * size)), size, j, clocks[j])
    {
      OtherSlotKept(value, size, clocks, i, v, j);
    }
  }

  lemma OtherSlotKept(value: seq<Byte>, size: nat, clocks: seq<nat>, i: nat, v: nat, j: nat)
    requires i < |clocks| && j < |clocks| && j != i && SlotHolds(value, size, j, clocks[j])
    requires Offset(size, i) + 2 * size <= |value|
    ensures SlotHolds(Overwrite(value, Offset(size, i), Encode(v, 2 * size)), size, j, clocks[j])
  {
    OffsetSteps(size, if i < j then i else j, if i < j then j else i);
    SlotKept(value, Offset(size, i), Encode(v, 2 * size), size, j, clocks[j]);
  }

  /** Writing sequences leaves the index and the size alone. */
  lemma MetaKept(value: seq<Byte>, offset: nat, bytes: seq<Byte>)
    requires META_SIZE <= offset && offset + |bytes| <= |value|
    ensures var r := Overwrite(value, offset, bytes); r[..2] == value[..2] && r[2] == value[2]
  {
    OverwrittenParts(value, offset, bytes);
    SliceOfFront(value, offset, 0, 2);
    SliceOfFront(Overwrite(value, offset, bytes), offset, 0, 2);
    assert Overwrite(value, offset, bytes)[2] == Overwrite(value, offset, bytes)[..offset][2];
  }
}
