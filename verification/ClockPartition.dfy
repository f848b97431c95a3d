/** A sharded clock partition (base/sharded_sequence_clock.go:410-643): sequences per vbucket, read and written
    directly in a byte buffer whose width per sequence grows when a sequence no longer fits. */
module ClockPartition {
  import opened Numbers
  import opened BigEndian
  import opened ClockPartitionLayout
  import opened VbSeqs

  predicate DistinctVbs(vbuckets: seq<nat>) {
    forall i, j :: 0 <= i < j < |vbuckets| ==> vbuckets[i] != vbuckets[j]
  }

  function VbSet(vbuckets: seq<nat>): set<nat> {
    set vb | vb in vbuckets
  }

  /** The offset map of a layout. */
  ghost predicate OffsetsFor(offsets: map<nat, nat>, vbuckets: seq<nat>, size: nat) {
    && offsets.Keys == VbSet(vbuckets)
    && forall i :: 0 <= i < |vbuckets| ==> OffsetOf(offsets, vbuckets[i], size, i)
  }

  ghost predicate OffsetOf(offsets: map<nat, nat>, vb: nat, size: nat, i: nat) {
    vb in offsets && offsets[vb] == Offset(size, i)
  }

  // ---- reading and writing one sequence

  function GetSequenceUint16(value: seq<Byte>, offset: nat): (v: nat)
    requires offset + 2 <= |value|
    ensures v == Decode(value[offset..offset + 2])
  {
    Decode2(value[offset..offset + 2]);
    (value[offset + 1] as nat) + (value[offset] as nat) * 0x100
  }

  function GetSequenceUint32(value: seq<Byte>, offset: nat): (v: nat)
    requires offset + 4 <= |value|
    ensures v == Decode(value[offset..offset + 4])
  {
    Decode4(value[offset..offset + 4]);
    (value[offset + 3] as nat) + (value[offset + 2] as nat) * 0x100
    + (value[offset + 1] as nat) * 0x1_0000 + (value[offset] as nat) * 0x100_0000
  }

  function GetSequenceUint48(value: seq<Byte>, offset: nat): (v: nat)
    requires offset + 6 <= |value|
    ensures v == Decode(value[offset..offset + 6])
  {
    Decode6(value[offset..offset + 6]);
    (value[offset + 5] as nat) + (value[offset + 4] as nat) * 0x100
    + (value[offset + 3] as nat) * 0x1_0000 + (value[offset + 2] as nat) * 0x100_0000
    + (value[offset + 1] as nat) * 0x1_0000_0000 + (value[offset] as nat) * 0x100_0000_0000
  }

  function GetSequenceUint64(value: seq<Byte>, offset: nat): (v: nat)
    requires offset + 8 <= |value|
    ensures v == Decode(value[offset..offset + 8])
  {
    Decode8(value[offset..offset + 8]);
    (value[offset + 7] as nat) + (value[offset + 6] as nat) * 0x100
    + (value[offset + 5] as nat) * 0x1_0000 + (value[offset + 4] as nat) * 0x100_0000
    + (value[offset + 3] as nat) * 0x1_0000_0000 + (value[offset + 2] as nat) * 0x100_0000_0000
    + (value[offset + 1] as nat) * 0x1_0000_0000_0000 + (value[offset] as nat) * 0x100_0000_0000_0000
  }

  function GetSequenceForOffset(value: seq<Byte>, offset: nat, size: nat): (v: nat)
    requires 1 <= size <= 4 && offset + 2 * size <= |value|
    ensures v == Decode(value[offset..offset + 2 * size])
  {
    if size == 1 then GetSequenceUint16(value, offset)
    else if size == 2 then GetSequenceUint32(value, offset)
    else if size == 3 then GetSequenceUint48(value, offset)
    else GetSequenceUint64(value, offset)
  }

  /** The bytes of a sequence, most significant first, each shifted down to its place. */
  function SequenceBytes(v: nat, size: nat): (bytes: seq<Byte>)
    requires 1 <= size <= 4
    ensures bytes == Encode(v, 2 * size)
  {
    var bytes: seq<Byte> :=
      if size == 1 then [ByteOf(Shr(v, 1)), ByteOf(v)]
      else if size == 2 then [ByteOf(Shr(v, 3)), ByteOf(Shr(v, 2)), ByteOf(Shr(v, 1)), ByteOf(v)]
      else if size == 3 then
        [ByteOf(Shr(v, 5)), ByteOf(Shr(v, 4)), ByteOf(Shr(v, 3)), ByteOf(Shr(v, 2)), ByteOf(Shr(v, 1)), ByteOf(v)]
      else
        [ByteOf(Shr(v, 7)), ByteOf(Shr(v, 6)), ByteOf(Shr(v, 5)), ByteOf(Shr(v, 4)),
         ByteOf(Shr(v, 3)), ByteOf(Shr(v, 2)), ByteOf(Shr(v, 1)), ByteOf(v)];
    assert bytes == Encode(v, 2 * size) by {
      BytesAre(v, 2 * size, bytes);
    }
    bytes
  }

  lemma BytesAre(v: nat, width: nat, bytes: seq<Byte>)
    requires |bytes| == width && forall k :: 0 <= k < width ==> bytes[k] == ByteOf(Shr(v, width - 1 - k))
    ensures bytes == Encode(v, width)
  {
    forall k | 0 <= k < width
      ensures bytes[k] == Encode(v, width)[k]
    {
      EncodeAt(v, width, k);
    }
  }

  function SetSequenceForOffset(value: seq<Byte>, offset: nat, size: nat, v: nat): (r: seq<Byte>)
    requires 1 <= size <= 4 && offset + 2 * size <= |value|
    ensures r == Overwrite(value, offset, Encode(v, 2 * size))
  {
    Overwrite(value, offset, SequenceBytes(v, size))
  }

  /** The smallest size that is surely large enough. */
  method NewSize(sequence: nat, ghost oldSize: nat) returns (newSize: nat)
    requires 1 <= oldSize <= 4 && MaxSequence(oldSize) < sequence <= MAX_UINT64
    ensures oldSize < newSize <= 4 && sequence <= MaxSequence(newSize)
    ensures newSize == SizeFor(sequence)
  {
    newSize := 4;
    var i := 2;
    while i <= 4
      invariant 2 <= i <= 5 && newSize == 4
      invariant forall k :: 2 <= k < i ==> MaxSequence(k) <= sequence
    {
      if sequence < MaxSequence(i) {
        assert i > 2 ==> MaxSequence(2) <= sequence;
        assert i > 3 ==> MaxSequence(3) <= sequence;
        newSize := i;
        return;
      }
      i := i + 1;
    }
    assert MaxSequence(3) <= sequence && MaxSequence(2) <= sequence;
  }

  /** What a partition grows to: the least size above one that the sequence does not fill. */
  function SizeFor(sequence: nat): nat {
    if sequence < 0xFFFF_FFFF then 2 else if sequence < 0xFFFF_FFFF_0000 then 3 else 4
  }

  /** A sequence that a partition takes without growing. */
  predicate FitsIn(sequence: nat, size: nat) {
    || sequence <= 0xFFFF
    || (size >= 2 && sequence <= 0xFFFF_FFFF)
    || (size >= 3 && sequence <= 0xFFFF_FFFF_0000)
    || size >= 4
  }

  // ---- widening

  ghost predicate PartlyWidened(r: seq<Byte>, oldSize: nat, newSize: nat, clocks: seq<nat>, k: int) {
    && |r| == Offset(newSize, |clocks|)
    && (forall i :: 0 <= i <= k && i < |clocks| ==> SlotHolds(r, oldSize, i, clocks[i]))
    && (forall i :: 0 <= i < |clocks| && k < i ==> SlotHolds(r, newSize, i, clocks[i]))
  }

  /** Moving one sequence up to its new place disturbs neither those below nor those already moved. */
  lemma WidenStep(r: seq<Byte>, oldSize: nat, newSize: nat, clocks: seq<nat>, k: nat)
    requires 1 <= oldSize < newSize <= 4 && k < |clocks|
    requires PartlyWidened(r, oldSize, newSize, clocks, k)
    ensures Offset(oldSize, k) + 2 * oldSize <= |r| && Offset(newSize, k) + 2 * newSize <= |r|
    ensures META_SIZE <= Offset(oldSize, k) <= Offset(newSize, k)
    ensures var zeroed := Overwrite(r, Offset(oldSize, k), Encode(0, 2 * oldSize));
      var moved := Overwrite(zeroed, Offset(newSize, k), Encode(clocks[k], 2 * newSize));
      PartlyWidened(moved, oldSize, newSize, clocks, k - 1)
  {
    SlotInside(newSize, k, |clocks|);
    OffsetGrows(oldSize, newSize, k);
    assert SlotHolds(r, oldSize, k, clocks[k]);
    var zeroed := Overwrite(r, Offset(oldSize, k), Encode(0, 2 * oldSize));
    var moved := Overwrite(zeroed, Offset(newSize, k), Encode(clocks[k], 2 * newSize));
    SlotWritten(zeroed, newSize, k, clocks[k]);
    forall i | 0 <= i < k
      ensures SlotHolds(moved, oldSize, i, clocks[i])
    {
      WidenBelow(r, oldSize, newSize, clocks, k, i);
    }
    forall i | k < i < |clocks|
      ensures SlotHolds(moved, newSize, i, clocks[i])
    {
      WidenAbove(r, oldSize, newSize, clocks, k, i);
    }
  }

  lemma WidenBelow(r: seq<Byte>, oldSize: nat, newSize: nat, clocks: seq<nat>, k: nat, i: nat)
    requires 1 <= oldSize < newSize <= 4 && i < k < |clocks| && SlotHolds(r, oldSize, i, clocks[i])
    requires Offset(oldSize, k) + 2 * oldSize <= |r| && Offset(newSize, k) + 2 * newSize <= |r|
    ensures var zeroed := Overwrite(r, Offset(oldSize, k), Encode(0, 2 * oldSize));
      SlotHolds(Overwrite(zeroed, Offset(newSize, k), Encode(clocks[k], 2 * newSize)), oldSize, i, clocks[i])
  {
    OffsetSteps(oldSize, i, k);
    OffsetGrows(oldSize, newSize, k);
    var zeroed := Overwrite(r, Offset(oldSize, k), Encode(0, 2 * oldSize));
    SlotKept(r, Offset(oldSize, k), Encode(0, 2 * oldSize), oldSize, i, clocks[i]);
    SlotKept(zeroed, Offset(newSize, k), Encode(clocks[k], 2 * newSize), oldSize, i, clocks[i]);
  }

  lemma WidenAbove(r: seq<Byte>, oldSize: nat, newSize: nat, clocks: seq<nat>, k: nat, i: nat)
    requires 1 <= oldSize < newSize <= 4 && k < i < |clocks| && SlotHolds(r, newSize, i, clocks[i])
    requires Offset(oldSize, k) + 2 * oldSize <= |r| && Offset(newSize, k) + 2 * newSize <= |r|
    ensures var zeroed := Overwrite(r, Offset(oldSize, k), Encode(0, 2 * oldSize));
      SlotHolds(Overwrite(zeroed, Offset(newSize, k), Encode(clocks[k], 2 * newSize)), newSize, i, clocks[i])
  {
    OffsetSteps(newSize, k, i);
    OffsetGrows(oldSize, newSize, k);
    var zeroed := Overwrite(r, Offset(oldSize, k), Encode(0, 2 * oldSize));
    SlotKept(r, Offset(oldSize, k), Encode(0, 2 * oldSize), newSize, i, clocks[i]);
    SlotKept(zeroed, Offset(newSize, k), Encode(clocks[k], 2 * newSize), newSize, i, clocks[i]);
  }

  lemma SlotExtended(value: seq<Byte>, more: seq<Byte>, size: nat, i: nat, v: nat)
    requires SlotHolds(value, size, i, v)
    ensures SlotHolds(value + more, size, i, v)
  {
    assert Slot(value + more, size, i) == Slot(value, size, i);
  }

  lemma Extension(oldSize: nat, newSize: nat, count: nat)
    requires 1 <= oldSize < newSize <= 4 && count <= MAX_VBUCKETS
    ensures U16(U16(count * 2) * (newSize - oldSize)) == Offset(newSize, count) - Offset(oldSize, count)
  {
    OffsetDifference(oldSize, newSize - oldSize, count);
    GrowthFits(newSize - oldSize, count);
  }

  /** Extends the buffer and moves the sequences, last one first. */
  method Widened(value: seq<Byte>, count: nat, oldSize: nat, newSize: nat, ghost index: nat, ghost clocks: seq<nat>)
    returns (r: seq<Byte>)
    requires 1 <= oldSize < newSize <= 4 && count == |clocks| <= MAX_VBUCKETS
    requires Represents(value, index, oldSize, clocks)
    ensures |r| >= META_SIZE && r[..2] == value[..2]
    ensures PartlyWidened(r, oldSize, newSize, clocks, -1)
  {
    Extension(oldSize, newSize, count);
    var more: seq<Byte> := seq(U16(U16(count * 2) * (newSize - oldSize)), _ => 0);
    forall i | 0 <= i < |clocks|
      ensures SlotHolds(value + more, oldSize, i, clocks[i])
    {
      assert SlotHolds(value, oldSize, i, clocks[i]);
      SlotExtended(value, more, oldSize, i, clocks[i]);
    }
    r := value + more;
    var i := count - 1;
    while i >= 0
      invariant -1 <= i < count
      invariant PartlyWidened(r, oldSize, newSize, clocks, i)
      invariant |r| >= META_SIZE && r[..2] == value[..2]
    {
      r := MoveOne(r, oldSize, newSize, i, clocks);
      i := i - 1;
    }
  }

  method MoveOne(value: seq<Byte>, oldSize: nat, newSize: nat, i: nat, ghost clocks: seq<nat>) returns (r: seq<Byte>)
    requires 1 <= oldSize < newSize <= 4 && i < |clocks| <= MAX_VBUCKETS
    requires PartlyWidened(value, oldSize, newSize, clocks, i) && clocks[i] <= MaxSequence(oldSize)
    ensures PartlyWidened(r, oldSize, newSize, clocks, i - 1)
    ensures |r| == |value| >= META_SIZE && r[..2] == value[..2]
  {
    var oldOffset := StoredOffset(oldSize, i);
    var newOffset := StoredOffset(newSize, i);
    NoWrap(oldSize, i);
    NoWrap(newSize, i);
    WidenStep(value, oldSize, newSize, clocks, i);
    r := Relocate(value, oldOffset, oldSize, newOffset, newSize, clocks[i]);
  }

  /** Reads a sequence, zeroes it, then writes it at its new place, which may overlap the old one. */
  method Relocate(value: seq<Byte>, oldOffset: nat, oldSize: nat, newOffset: nat, newSize: nat, ghost v: nat)
    returns (r: seq<Byte>)
    requires 1 <= oldSize <= 4 && 1 <= newSize <= 4 && META_SIZE <= oldOffset <= newOffset
    requires oldOffset + 2 * oldSize <= |value| && newOffset + 2 * newSize <= |value|
    requires value[oldOffset..oldOffset + 2 * oldSize] == Encode(v, 2 * oldSize) && v <= MaxSequence(oldSize)
    ensures r == Overwrite(Overwrite(value, oldOffset, Encode(0, 2 * oldSize)), newOffset, Encode(v, 2 * newSize))
    ensures |r| == |value| && r[..2] == value[..2]
  {
    ReadBack(v, oldSize);
    var sequence := GetSequenceForOffset(value, oldOffset, oldSize);
    r := SetSequenceForOffset(value, oldOffset, oldSize, 0);
    MetaKept(value, oldOffset, Encode(0, 2 * oldSize));
    MetaKept(r, newOffset, Encode(sequence, 2 * newSize));
    r := SetSequenceForOffset(r, newOffset, newSize, sequence);
  }

  class ShardedClockPartition {
    var value: seq<Byte>
    var vbucketOffsets: map<nat, nat>
    ghost var vbuckets: seq<nat>
    ghost var index: nat
    ghost var clocks: seq<nat>

    ghost predicate Valid()
      reads this
    {
      && DistinctVbs(vbuckets) && |vbuckets| == |clocks| <= MAX_VBUCKETS
      && |value| >= META_SIZE && index <= 0xFFFF
      && Represents(value, index, value[2], clocks)
      && OffsetsFor(vbucketOffsets, vbuckets, value[2])
    }

    /** The partition as a map from vbuckets to sequences. */
    ghost function Clock(): map<nat, nat>
      requires Valid()
      reads this
    {
      ClockOf(vbuckets, clocks)
    }

    /** An empty partition. */
    constructor (partitionIndex: nat, vbNos: seq<nat>)
      requires partitionIndex <= 0xFFFF && DistinctVbs(vbNos) && |vbNos| <= MAX_VBUCKETS
      ensures Valid() && index == partitionIndex && vbuckets == vbNos
      ensures forall vb :: vb in vbNos ==> vb in Clock() && Clock()[vb] == 0
    {
      var bytes: seq<Byte> := seq(META_SIZE + |vbNos| * 1 * 2, _ => 0);
      bytes := bytes[2 := 1];
      bytes := bytes[0 := ByteOf(partitionIndex / 256)][1 := ByteOf(partitionIndex)];
      value := bytes;
      vbuckets, index, clocks := vbNos, partitionIndex, seq(|vbNos|, _ => 0);
      vbucketOffsets := map[];
      new;
      EmptyRepresents(value, partitionIndex, |vbNos|);
      Init(vbNos);
      forall vb | vb in vbNos
        ensures vb in Clock() && Clock()[vb] == 0
      {
        var i :| 0 <= i < |vbNos| && vbNos[i] == vb;
        ClockAt(vbuckets, clocks, i);
      }
    }

    /** A partition from stored bytes; its vbuckets come from the partition map. */
    constructor ForBytes(bytes: seq<Byte>, defs: seq<seq<nat>>, ghost partitionIndex: nat, ghost stored: seq<nat>)
      requires |bytes| >= META_SIZE && partitionIndex < |defs| && partitionIndex <= 0xFFFF
      requires Represents(bytes, partitionIndex, bytes[2], stored)
      requires DistinctVbs(defs[partitionIndex]) && |defs[partitionIndex]| == |stored| <= MAX_VBUCKETS
      ensures Valid() && value == bytes && index == partitionIndex
      ensures vbuckets == defs[partitionIndex] && clocks == stored
    {
      value := bytes;
      vbucketOffsets := map[];
      vbuckets, index, clocks := defs[partitionIndex], partitionIndex, stored;
      new;
      var i := GetIndex();
      Init(defs[i]);
    }

    method Init(vbNos: seq<nat>)
      requires |value| >= META_SIZE && 1 <= value[2] <= 4 && DistinctVbs(vbNos) && |vbNos| <= MAX_VBUCKETS
      modifies this`vbucketOffsets
      ensures OffsetsFor(vbucketOffsets, vbNos, value[2])
    {
      vbucketOffsets := map[];
      var i := 0;
      while i < |vbNos|
        invariant 0 <= i <= |vbNos|
        invariant OffsetsFor(vbucketOffsets, vbNos[..i], value[2])
      {
        NoWrap(value[2], i);
        OffsetAdded(vbucketOffsets, vbNos, value[2], i);
        vbucketOffsets := vbucketOffsets[vbNos[i] := StoredOffset(value[2], i)];
        i := i + 1;
      }
      assert vbNos[..|vbNos|] == vbNos;
    }

    method GetIndex() returns (i: nat)
      requires |value| >= META_SIZE && index <= 0xFFFF && value[..2] == Encode(index, 2)
      ensures i == index
    {
      i := (value[1] as nat) + (value[0] as nat) * 256;
      assert Pow256(1) == 256 && Pow256(2) == 0x1_0000;
      RoundTrip(index, 2);
      Decode2(value[..2]);
    }

    function GetSeqSize(): nat
      requires |value| >= META_SIZE
      reads this
    {
      value[2] as nat
    }

    method Marshal() returns (bytes: seq<Byte>)
      requires Valid()
      ensures |bytes| >= META_SIZE && bytes == value && Represents(bytes, index, bytes[2], clocks)
    {
      bytes := value;
    }

    /** Takes over stored bytes but keeps the offsets: right exactly when the offsets did not need to move. */
    method Unmarshal(bytes: seq<Byte>, ghost stored: seq<nat>)
      requires Valid() && |bytes| >= META_SIZE && |stored| == |vbuckets| && Represents(bytes, index, bytes[2], stored)
      modifies this`value, this`clocks
      ensures value == bytes && clocks == stored
      ensures Valid() <==> bytes[2] == old(value[2]) || |vbuckets| <= 1
    {
      OffsetsStay(vbucketOffsets, vbuckets, value[2], bytes[2]);
      value := bytes;
      clocks := stored;
    }

    // ---- reading

    /** The sequence of a vbucket. One that is not in the partition has offset 0, where the index is stored; there a
        buffer that is too short is an error. */
    method GetSequence(vb: nat) returns (sequence: nat)
      requires Valid() && (vb in vbucketOffsets || 2 * value[2] <= |value|)
      ensures vb in Clock() <==> vb in vbucketOffsets
      ensures vb in vbucketOffsets ==> sequence == Clock()[vb]
      ensures vb !in vbucketOffsets && value[2] == 1 ==> sequence == index
      ensures vb !in vbucketOffsets ==> sequence == Decode(value[..2 * value[2]])
    {
      ClockKeys(vbuckets, clocks);
      if vb in vbucketOffsets {
        ReadsSlot(vb);
      } else if value[2] == 1 {
        assert Pow256(1) == 256 && Pow256(2) == 0x1_0000;
        RoundTrip(index, 2);
      }
      sequence := GetSequenceForOffset(value, if vb in vbucketOffsets then vbucketOffsets[vb] else 0, GetSeqSize());
    }

    lemma ReadsSlot(vb: nat)
      requires Valid() && vb in vbucketOffsets
      ensures vb in Clock() && Reads(value, vbucketOffsets[vb], value[2], Clock()[vb])
    {
      var i :| 0 <= i < |vbuckets| && vbuckets[i] == vb;
      StoredReadsBack(vbucketOffsets, vbuckets, value, index, value[2], clocks);
      ClockAt(vbuckets, clocks, i);
    }

    // ---- writing

    /** Sets a vbucket's sequence. One that is not in the partition is written over the index, and at larger sizes over
        what follows it. */
    method SetSequence(vb: nat, sequence: nat)
      requires Valid() && (vb in vbucketOffsets || vbuckets != []) && sequence <= MAX_UINT64
      modifies this
      ensures index == old(index) && vbuckets == old(vbuckets)
      ensures vb in old(vbucketOffsets) ==> Valid() && vb in vbuckets && Clock() == old(Clock())[vb := sequence]
      ensures vb in old(vbucketOffsets) ==>
        value[2] == if FitsIn(sequence, old(value[2])) then old(value[2]) else SizeFor(sequence)
      ensures vb !in old(vbucketOffsets) ==> WrittenOverIndex(value, index, old(clocks), sequence)
    {
      if sequence > MaxSequence(GetSeqSize()) {
        Resize(sequence);
      }
      if vb in vbucketOffsets {
        SetAtOffset(vb, sequence);
      } else {
        SlotInside(value[2], 0, |clocks|);
        ghost var before := value;
        value := SetSequenceForOffset(value, 0, GetSeqSize(), sequence);
        assert IsWrittenOver(before, value, index, clocks, sequence);
      }
    }

    method SetAtOffset(vb: nat, sequence: nat)
      requires Valid() && vb in vbucketOffsets && sequence <= MaxSequence(value[2])
      modifies this`value, this`clocks
      ensures Valid() && vb in vbuckets && Clock() == old(Clock())[vb := sequence] && value[2] == old(value[2])
    {
      ghost var i := WritesSlot(vb, sequence);
      ClockUpdated(vbuckets, clocks, i, sequence);
      value := SetSequenceForOffset(value, vbucketOffsets[vb], GetSeqSize(), sequence);
      clocks := clocks[i := sequence];
    }

    lemma WritesSlot(vb: nat, sequence: nat) returns (i: nat)
      requires Valid() && vb in vbucketOffsets && sequence <= MaxSequence(value[2])
      ensures i < |vbuckets| && vbuckets[i] == vb
      ensures vbucketOffsets[vb] + 2 * value[2] <= |value|
      ensures var written := Overwrite(value, vbucketOffsets[vb], Encode(sequence, 2 * value[2]));
        written[2] == value[2] && Represents(written, index, value[2], clocks[i := sequence])
    {
      i :| 0 <= i < |vbuckets| && vbuckets[i] == vb;
      assert OffsetOf(vbucketOffsets, vbuckets[i], value[2], i);
      SetRepresents(value, index, value[2], clocks, i, sequence);
    }

    /** Sets the sequences of one partition's share of an update, in order. */
    method SetSequences(updates: seq<VbSeq>)
      requires Valid() && forall k :: 0 <= k < |updates| ==>
        updates[k].vb in vbuckets && updates[k].sequence <= MAX_UINT64
      modifies this
      ensures Valid() && index == old(index) && vbuckets == old(vbuckets)
      ensures Clock() == Updated(old(Clock()), updates)
    {
      var k := 0;
      while k < |updates|
        invariant 0 <= k <= |updates| && Valid() && index == old(index) && vbuckets == old(vbuckets)
        invariant Clock() == Updated(old(Clock()), updates[..k])
      {
        assert updates[..k + 1][..k] == updates[..k];
        assert updates[k].vb in VbSet(vbuckets);
        SetSequence(updates[k].vb, updates[k].sequence);
        k := k + 1;
      }
      assert updates[..k] == updates;
    }

    /** The retry after a failed write: loads the bytes another node stored and sets the same sequences again. */
    method Reapply(bytes: seq<Byte>, updates: seq<VbSeq>, ghost stored: seq<nat>)
      returns (r: seq<Byte>, ghost clocks': seq<nat>)
      requires Valid() && |bytes| >= META_SIZE && |stored| == |vbuckets| && Represents(bytes, index, bytes[2], stored)
      requires bytes[2] == value[2] || |vbuckets| <= 1
      requires forall k :: 0 <= k < |updates| ==> updates[k].vb in vbuckets && updates[k].sequence <= MAX_UINT64
      modifies this
      ensures Valid() && index == old(index) && vbuckets == old(vbuckets)
      ensures |clocks'| == |vbuckets| && |r| >= META_SIZE && Represents(r, index, r[2], clocks')
      ensures ClockOf(vbuckets, clocks') == Updated(ClockOf(vbuckets, stored), updates)
    {
      Unmarshal(bytes, stored);
      SetSequences(updates);
      r := Marshal();
      clocks' := clocks;
    }

    /** Widens every sequence, moving them from the last to the first within the extended buffer. */
    method Resize(sequence: nat)
      requires Valid() && MaxSequence(value[2]) < sequence <= MAX_UINT64
      modifies this`value, this`vbucketOffsets
      ensures Valid() && old(value[2]) < value[2] && sequence <= MaxSequence(value[2])
      ensures value[2] == SizeFor(sequence)
    {
      var oldSize := GetSeqSize();
      var newSize := NewSize(sequence, oldSize);
      var count := |vbucketOffsets|;
      VbCount(vbuckets);
      assert |vbucketOffsets.Keys| == count;
      NoWrap(newSize - oldSize, count);
      value := Widened(value, count, oldSize, newSize, index, clocks);
      RescaleOffsets(oldSize, newSize);
      ghost var before := value;
      value := value[2 := newSize];
      WidenedRepresents(value, index, newSize, clocks, before, oldSize);
    }

    /** Recomputes each vbucket's offset for the new size, in any order. */
    method RescaleOffsets(oldSize: nat, newSize: nat)
      requires 1 <= oldSize < newSize <= 4 && DistinctVbs(vbuckets) && |vbuckets| <= MAX_VBUCKETS
      requires OffsetsFor(vbucketOffsets, vbuckets, oldSize)
      modifies this`vbucketOffsets
      ensures OffsetsFor(vbucketOffsets, vbuckets, newSize)
    {
      ghost var before := vbucketOffsets;
      OffsetsPastMeta(before, vbuckets, oldSize);
      var todo := vbucketOffsets.Keys;
      while todo != {}
        invariant todo <= before.Keys == vbucketOffsets.Keys
        invariant forall vb :: vb in todo ==> vbucketOffsets[vb] == before[vb]
        invariant forall vb :: vb in before && vb !in todo ==>
          vbucketOffsets[vb] == RescaledOffset(before[vb], oldSize, newSize)
        decreases |todo|
      {
        var vb :| vb in todo;
        vbucketOffsets := vbucketOffsets[vb := RescaledOffset(vbucketOffsets[vb], oldSize, newSize)];
        todo := todo - {vb};
      }
      AllRescaled(before, vbucketOffsets, vbuckets, oldSize, newSize);
    }
  }

  function RescaledOffset(offset: nat, oldSize: nat, newSize: nat): nat
    requires offset >= META_SIZE && oldSize > 0
  {
    U16(U16(offset - META_SIZE) * newSize) / oldSize + META_SIZE
  }

  lemma OffsetsPastMeta(offsets: map<nat, nat>, vbuckets: seq<nat>, size: nat)
    requires OffsetsFor(offsets, vbuckets, size)
    ensures forall vb :: vb in offsets ==> offsets[vb] >= META_SIZE
  {
    forall vb | vb in offsets
      ensures offsets[vb] >= META_SIZE
    {
      assert vb in VbSet(vbuckets);
      var i :| 0 <= i < |vbuckets| && vbuckets[i] == vb;
      assert OffsetOf(offsets, vbuckets[i], size, i);
    }
  }

  lemma AllRescaled(before: map<nat, nat>, after: map<nat, nat>, vbuckets: seq<nat>, oldSize: nat, newSize: nat)
    requires 1 <= oldSize < newSize <= 4 && |vbuckets| <= MAX_VBUCKETS
    requires OffsetsFor(before, vbuckets, oldSize) && before.Keys == after.Keys
    requires forall vb :: vb in before ==> before[vb] >= META_SIZE
    requires forall vb :: vb in before ==> after[vb] == RescaledOffset(before[vb], oldSize, newSize)
    ensures OffsetsFor(after, vbuckets, newSize)
  {
    forall i | 0 <= i < |vbuckets|
      ensures OffsetOf(after, vbuckets[i], newSize, i)
    {
      assert OffsetOf(before, vbuckets[i], oldSize, i);
      Rescaled(oldSize, newSize, i);
    }
  }

  // ---- updates as a map

  ghost function Updated(clock: map<nat, nat>, updates: seq<VbSeq>): map<nat, nat> {
    if updates == [] then clock
    else
      var n := |updates| - 1;
      Updated(clock, updates[..n])[updates[n].vb := updates[n].sequence]
  }

  ghost predicate LastSet(updates: seq<VbSeq>, vb: nat, k: nat) {
    && k < |updates| && updates[k].vb == vb
    && forall j :: k < j < |updates| ==> updates[j].vb != vb
  }

  ghost predicate NeverSet(updates: seq<VbSeq>, vb: nat) {
    forall k :: 0 <= k < |updates| ==> updates[k].vb != vb
  }

  /** Whatever widths the buffer went through, the last sequence set for a vbucket is the one it has. */
  lemma {:induction false} LastSetWins(clock: map<nat, nat>, updates: seq<VbSeq>, vb: nat, k: nat)
    requires LastSet(updates, vb, k)
    ensures vb in Updated(clock, updates) && Updated(clock, updates)[vb] == updates[k].sequence
  {
    var n := |updates| - 1;
    if k < n {
      LastSetWins(clock, updates[..n], vb, k);
    }
  }

  /** A vbucket that is not set keeps its sequence. */
  lemma {:induction false} NeverSetKept(clock: map<nat, nat>, updates: seq<VbSeq>, vb: nat)
    requires NeverSet(updates, vb)
    ensures vb in Updated(clock, updates) <==> vb in clock
    ensures vb in clock ==> Updated(clock, updates)[vb] == clock[vb]
  {
    if updates != [] {
      NeverSetKept(clock, updates[..|updates| - 1], vb);
    }
  }

  lemma {:induction false} SetOrNever(updates: seq<VbSeq>, vb: nat)
    ensures NeverSet(updates, vb) || exists k :: LastSet(updates, vb, k)
  {
    if updates != [] {
      var n := |updates| - 1;
      if updates[n].vb == vb {
        assert LastSet(updates, vb, n);
      } else {
        SetOrNever(updates[..n], vb);
        if k :| LastSet(updates[..n], vb, k) {
          assert LastSet(updates, vb, k);
        }
      }
    }
  }

  /** Setting the same sequences once more changes nothing, so a retry over bytes that already hold them is harmless. */
  lemma UpdatedTwice(clock: map<nat, nat>, updates: seq<VbSeq>)
    ensures Updated(Updated(clock, updates), updates) == Updated(clock, updates)
  {
    var once := Updated(clock, updates);
    var twice := Updated(once, updates);
    forall vb
      ensures vb in twice <==> vb in once
      ensures vb in once ==> twice[vb] == once[vb]
    {
      SetOrNever(updates, vb);
      if k :| LastSet(updates, vb, k) {
        LastSetWins(clock, updates, vb, k);
        LastSetWins(once, updates, vb, k);
      } else {
        NeverSetKept(once, updates, vb);
      }
    }
  }

  // ---- stored bytes

  /** Bytes stand for one index and one clock only. */
  lemma RepresentsOne(value: seq<Byte>, index: nat, clocks: seq<nat>, index': nat, clocks': seq<nat>)
    requires |value| >= META_SIZE && index <= 0xFFFF && index' <= 0xFFFF
    requires Represents(value, index, value[2], clocks) && Represents(value, index', value[2], clocks')
    ensures index == index' && clocks == clocks'
  {
    assert Pow256(1) == 256 && Pow256(2) == 0x1_0000;
    RoundTrip(index, 2);
    RoundTrip(index', 2);
    SameCount(value[2], |clocks|, |clocks'|);
    forall i | 0 <= i < |clocks|
      ensures clocks[i] == clocks'[i]
    {
      assert SlotHolds(value, value[2], i, clocks[i]) && SlotHolds(value, value[2], i, clocks'[i]);
      ReadBack(clocks[i], value[2]);
      ReadBack(clocks'[i], value[2]);
    }
  }

  /** The index is stored with its more significant byte first. */
  lemma IndexBytes(value: seq<Byte>, index: nat, clocks: seq<nat>)
    requires |value| >= META_SIZE && index <= 0xFFFF && Represents(value, index, value[2], clocks)
    ensures index == (value[0] as nat) * 256 + (value[1] as nat)
  {
    assert Pow256(1) == 256 && Pow256(2) == 0x1_0000;
    RoundTrip(index, 2);
    Decode2(value[..2]);
  }

  /** After three bytes for the index and the size come the sequences, in vbucket order and without gaps, each in twice
      `size` bytes. */
  lemma LayoutIs(value: seq<Byte>, index: nat, clocks: seq<nat>, i: nat)
    requires |value| >= META_SIZE && Represents(value, index, value[2], clocks) && i < |clocks|
    ensures |value| == 3 + 2 * value[2] * |clocks|
    ensures 0 <= 3 + 2 * value[2] * i <= 3 + 2 * value[2] * i + 2 * value[2] <= |value|
    ensures Decode(value[3 + 2 * value[2] * i..3 + 2 * value[2] * i + 2 * value[2]]) == clocks[i]
  {
    var size: nat := value[2];
    OffsetIs(size, i);
    OffsetIs(size, |clocks|);
    SlotInside(size, i, |clocks|);
    assert SlotHolds(value, size, i, clocks[i]);
    ReadBack(clocks[i], size);
  }

  lemma SameCount(size: nat, m: nat, n: nat)
    requires size > 0 && Offset(size, m) == Offset(size, n)
    ensures m == n
  {
    OffsetSteps(size, if m < n then m else n, if m < n then n else m);
  }

  /** The offsets of one size serve another only if there is at most one vbucket to find. */
  lemma OffsetsStay(offsets: map<nat, nat>, vbuckets: seq<nat>, size: nat, size': nat)
    requires OffsetsFor(offsets, vbuckets, size)
    ensures OffsetsFor(offsets, vbuckets, size') <==> size == size' || |vbuckets| <= 1
  {
    if |vbuckets| > 1 {
      assert Offset(size, 1) == Offset(size, 0) + 2 * size && Offset(size', 1) == Offset(size', 0) + 2 * size';
      assert OffsetOf(offsets, vbuckets[1], size, 1);
      assert OffsetOf(offsets, vbuckets[1], size', 1) ==> size == size';
    } else if |vbuckets| == 1 {
      assert OffsetOf(offsets, vbuckets[0], size, 0);
      assert OffsetOf(offsets, vbuckets[0], size', 0);
    }
  }

  /** Reading at an offset gives that sequence. */
  ghost predicate Reads(bytes: seq<Byte>, offset: nat, size: nat, sequence: nat)
    requires 1 <= size <= 4
  {
    offset + 2 * size <= |bytes| && GetSequenceForOffset(bytes, offset, size) == sequence
  }

  ghost predicate ReadsBack(offsets: map<nat, nat>, vbuckets: seq<nat>, bytes: seq<Byte>, size: nat, stored: seq<nat>)
    requires 1 <= size <= 4 && |stored| == |vbuckets|
  {
    forall i :: 0 <= i < |vbuckets| ==> vbuckets[i] in offsets && Reads(bytes, offsets[vbuckets[i]], size, stored[i])
  }

  /** With the offsets of one size, every clock stored at another reads back exactly if the sizes are the same or there
      is at most one vbucket. */
  lemma ReadsBackIff(offsets: map<nat, nat>, vbuckets: seq<nat>, size: nat, size': nat, index: nat)
    requires OffsetsFor(offsets, vbuckets, size) && 1 <= size <= 4 && 1 <= size' <= 4 && index <= 0xFFFF
    ensures (forall bytes: seq<Byte>, stored: seq<nat> ::
              |stored| == |vbuckets| && Represents(bytes, index, size', stored) ==>
              ReadsBack(offsets, vbuckets, bytes, size', stored))
            <==> size == size' || |vbuckets| <= 1
  {
    if size == size' || |vbuckets| <= 1 {
      OffsetsStay(offsets, vbuckets, size, size');
      forall bytes: seq<Byte>, stored: seq<nat> | |stored| == |vbuckets| && Represents(bytes, index, size', stored)
        ensures ReadsBack(offsets, vbuckets, bytes, size', stored)
      {
        StoredReadsBack(offsets, vbuckets, bytes, index, size', stored);
      }
    } else {
      var n := |vbuckets|;
      var bytes, stored := OneBytes(index, size', n), OneClock(n);
      OneRepresents(index, size', n);
      assert OffsetOf(offsets, vbuckets[1], size, 1);
      OneMisread(index, size', n, Offset(size, 1));
      assert !Reads(bytes, offsets[vbuckets[1]], size', stored[1]);
      assert !ReadsBack(offsets, vbuckets, bytes, size', stored);
    }
  }

  lemma StoredReadsBack(offsets: map<nat, nat>, vbuckets: seq<nat>, bytes: seq<Byte>, index: nat, size: nat,
                        stored: seq<nat>)
    requires OffsetsFor(offsets, vbuckets, size) && |stored| == |vbuckets| && Represents(bytes, index, size, stored)
    ensures ReadsBack(offsets, vbuckets, bytes, size, stored)
  {
    forall i | 0 <= i < |vbuckets|
      ensures vbuckets[i] in offsets && Reads(bytes, offsets[vbuckets[i]], size, stored[i])
    {
      assert OffsetOf(offsets, vbuckets[i], size, i);
      assert SlotHolds(bytes, size, i, stored[i]);
      ReadBack(stored[i], size);
    }
  }

  /** A clock that is zero except for the second vbucket, which is 1. */
  function OneClock(n: nat): seq<nat>
    requires n > 1
  {
    seq(n, _ => 0)[1 := 1]
  }

  function ZeroBytes(index: nat, size: nat, n: nat): (bytes: seq<Byte>)
    requires 1 <= size <= 4
    ensures |bytes| == Offset(size, n)
  {
    [ByteOf(index / 256), ByteOf(index), size] + seq(Offset(size, n) - META_SIZE, _ => 0)
  }

  function OneBytes(index: nat, size: nat, n: nat): (bytes: seq<Byte>)
    requires 1 <= size <= 4 && n > 1
    ensures |bytes| == Offset(size, n)
  {
    SlotInside(size, 1, n);
    Overwrite(ZeroBytes(index, size, n), Offset(size, 1), Encode(1, 2 * size))
  }

  lemma OneRepresents(index: nat, size: nat, n: nat)
    requires 1 <= size <= 4 && n > 1 && index <= 0xFFFF
    ensures Represents(OneBytes(index, size, n), index, size, OneClock(n))
  {
    ZeroRepresents(index, size, n);
    SetRepresents(ZeroBytes(index, size, n), index, size, seq(n, _ => 0), 1, 1);
  }

  lemma {:induction false} EncodeZeros(v: nat, width: nat, k: nat)
    requires k < width && v <= 1
    ensures Encode(v, width)[k] == if k == width - 1 then v else 0
  {
    if k < width - 1 {
      EncodeZeros(0, width - 1, k);
    }
  }

  lemma ZeroRepresents(index: nat, size: nat, n: nat)
    requires 1 <= size <= 4 && index <= 0xFFFF
    ensures Represents(ZeroBytes(index, size, n), index, size, seq(n, _ => 0))
  {
    var value := ZeroBytes(index, size, n);
    assert Shr(index, 1) == index / 256;
    BytesAre(index, 2, value[..2]);
    forall i | 0 <= i < n
      ensures SlotHolds(value, size, i, 0)
    {
      ZeroSlot(value, size, n, i);
    }
  }

  lemma ZeroSlot(value: seq<Byte>, size: nat, n: nat, i: nat)
    requires i < n && |value| == Offset(size, n) && forall k :: META_SIZE <= k < |value| ==> value[k] == 0
    ensures SlotHolds(value, size, i, 0)
  {
    SlotInside(size, i, n);
    forall k | 0 <= k < 2 * size
      ensures Slot(value, size, i)[k] == Encode(0, 2 * size)[k]
    {
      EncodeZeros(0, 2 * size, k);
    }
    assert Slot(value, size, i) == Encode(0, 2 * size);
  }

  /** The only byte that is not zero is the last one of the second slot, so only there does a reading end in 1. */
  lemma OneMisread(index: nat, size: nat, n: nat, offset: nat)
    requires 1 <= size <= 4 && n > 1 && META_SIZE <= offset && offset != Offset(size, 1)
    ensures !Reads(OneBytes(index, size, n), offset, size, 1)
  {
    var bytes := OneBytes(index, size, n);
    if offset + 2 * size <= |bytes| {
      var last := offset + 2 * size - 1;
      OneByteAt(index, size, n, last);
      var window := bytes[offset..offset + 2 * size];
      assert window[2 * size - 1] == bytes[last];
    }
  }

  lemma OneByteAt(index: nat, size: nat, n: nat, k: nat)
    requires 1 <= size <= 4 && n > 1 && META_SIZE <= k < Offset(size, n) && k != Offset(size, 1) + 2 * size - 1
    ensures OneBytes(index, size, n)[k] == 0
  {
    SlotInside(size, 1, n);
    var at := Offset(size, 1);
    OverwrittenParts(ZeroBytes(index, size, n), at, Encode(1, 2 * size));
    if at <= k < at + 2 * size {
      EncodeZeros(1, 2 * size, k - at);
      assert OneBytes(index, size, n)[at..at + 2 * size][k - at] == OneBytes(index, size, n)[k];
    }
  }

  /** Writing at an offset sets the i-th sequence of a stored clock and nothing else. */
  ghost predicate WritesRight(offset: nat, bytes: seq<Byte>, index: nat, size: nat, stored: seq<nat>, i: nat,
                              sequence: nat)
    requires 1 <= size <= 4 && i < |stored|
  {
    && offset + 2 * size <= |bytes|
    && Represents(SetSequenceForOffset(bytes, offset, size, sequence), index, size, stored[i := sequence])
  }

  /** With the offsets of one size, the retry of every write to every clock stored at another is right exactly if the
      sizes are the same or there is at most one vbucket. */
  lemma RewriteIff(offsets: map<nat, nat>, vbuckets: seq<nat>, size: nat, size': nat, index: nat)
    requires OffsetsFor(offsets, vbuckets, size) && 1 <= size <= 4 && 1 <= size' <= 4 && index <= 0xFFFF
    ensures (forall bytes: seq<Byte>, stored: seq<nat>, i: nat, sequence: nat ::
              |stored| == |vbuckets| && Represents(bytes, index, size', stored)
              && i < |vbuckets| && vbuckets[i] in offsets && sequence <= MaxSequence(size') ==>
              WritesRight(offsets[vbuckets[i]], bytes, index, size', stored, i, sequence))
            <==> size == size' || |vbuckets| <= 1
  {
    if size == size' || |vbuckets| <= 1 {
      OffsetsStay(offsets, vbuckets, size, size');
      forall bytes: seq<Byte>, stored: seq<nat>, i: nat, sequence: nat |
        |stored| == |vbuckets| && Represents(bytes, index, size', stored)
        && i < |vbuckets| && vbuckets[i] in offsets && sequence <= MaxSequence(size')
        ensures WritesRight(offsets[vbuckets[i]], bytes, index, size', stored, i, sequence)
      {
        assert OffsetOf(offsets, vbuckets[i], size', i);
        SetRepresents(bytes, index, size', stored, i, sequence);
      }
    } else {
      var n := |vbuckets|;
      ZeroRepresents(index, size', n);
      assert OffsetOf(offsets, vbuckets[1], size, 1);
      OneMiswritten(index, size', n, offsets[vbuckets[1]]);
      assert !WritesRight(offsets[vbuckets[1]], ZeroBytes(index, size', n), index, size', seq(n, _ => 0), 1, 1);
    }
  }

  /** Written anywhere else, a 1 does not end up in the last byte of the second slot. */
  lemma OneMiswritten(index: nat, size: nat, n: nat, offset: nat)
    requires 1 <= size <= 4 && n > 1 && META_SIZE <= offset && offset != Offset(size, 1)
    ensures !WritesRight(offset, ZeroBytes(index, size, n), index, size, seq(n, _ => 0), 1, 1)
  {
    var zero := ZeroBytes(index, size, n);
    if offset + 2 * size <= |zero| {
      var bytes := Encode(1, 2 * size);
      var written := Overwrite(zero, offset, bytes);
      SlotInside(size, 1, n);
      var p := Offset(size, 1) + 2 * size - 1;
      WrittenAt(zero, offset, bytes, p);
      if offset <= p < offset + 2 * size {
        EncodeZeros(1, 2 * size, p - offset);
      }
      EncodeZeros(1, 2 * size, 2 * size - 1);
      assert Slot(written, size, 1)[2 * size - 1] == written[p];
      assert !SlotHolds(written, size, 1, 1);
      assert seq(n, _ => 0)[1 := 1][1] == 1;
    }
  }

  lemma WrittenAt(value: seq<Byte>, offset: nat, bytes: seq<Byte>, k: nat)
    requires offset + |bytes| <= |value| && k < |value|
    ensures Overwrite(value, offset, bytes)[k] ==
      if offset <= k < offset + |bytes| then bytes[k - offset] else value[k]
  {
  }

  // ---- vbuckets of other partitions

  /** The bytes of a partition with a sequence written over its start. */
  ghost predicate WrittenOverIndex(value: seq<Byte>, index: nat, clocks: seq<nat>, sequence: nat) {
    exists before: seq<Byte> :: IsWrittenOver(before, value, index, clocks, sequence)
  }

  ghost predicate IsWrittenOver(before: seq<Byte>, value: seq<Byte>, index: nat, clocks: seq<nat>, sequence: nat) {
    && |before| >= META_SIZE && Represents(before, index, before[2], clocks)
    && sequence <= MaxSequence(before[2]) && 2 * before[2] <= |before|
    && value == Overwrite(before, 0, Encode(sequence, 2 * before[2]))
  }

  /** At the smallest size the partition merely takes the sequence for its index: no clock is harmed, but the bytes are
      now those of another partition. */
  lemma IndexReplaced(before: seq<Byte>, value: seq<Byte>, index: nat, clocks: seq<nat>, sequence: nat)
    requires IsWrittenOver(before, value, index, clocks, sequence) && before[2] == 1
    ensures Represents(value, sequence, 1, clocks)
  {
    var bytes := Encode(sequence, 2);
    OverwrittenParts(before, 0, bytes);
    assert value[2] == value[2..][0] == before[2..][0];
    forall i | 0 <= i < |clocks|
      ensures SlotHolds(value, 1, i, clocks[i])
    {
      assert SlotHolds(before, 1, i, clocks[i]);
      SlotKept(before, 0, bytes, 1, i, clocks[i]);
    }
  }

  /** At larger sizes it also overwrites the size itself, with the third byte of the sequence. */
  lemma SizeReplaced(before: seq<Byte>, value: seq<Byte>, index: nat, clocks: seq<nat>, sequence: nat)
    requires IsWrittenOver(before, value, index, clocks, sequence) && before[2] > 1
    ensures |value| >= META_SIZE && value[2] == Encode(sequence, 2 * before[2])[2]
  {
    OverwrittenParts(before, 0, Encode(sequence, 2 * before[2]));
    assert value[2] == value[0..0 + 2 * before[2]][2];
  }

  /** Bytes stored at size 2 for the sequences 70000 and 5, read at the offset that the second vbucket has at size 1:
      the answer is neither sequence. */
  lemma UnmarshalMisreads()
    ensures var bytes: seq<Byte> := [0, 0, 2, 0, 1, 17, 112, 0, 0, 0, 5];
      Represents(bytes, 0, 2, [70000, 5]) && GetSequenceForOffset(bytes, Offset(1, 1), 2) == 0x1170_0000
  {
    var bytes: seq<Byte> := [0, 0, 2, 0, 1, 17, 112, 0, 0, 0, 5];
    assert Shr(70000, 1) == 273 && Shr(70000, 2) == 1 && Shr(70000, 3) == 0;
    assert Shr(5, 1) == 0 && Shr(5, 2) == 0 && Shr(5, 3) == 0 && Shr(0, 1) == 0;
    BytesAre(0, 2, bytes[..2]);
    BytesAre(70000, 4, Slot(bytes, 2, 0));
    BytesAre(5, 4, Slot(bytes, 2, 1));
  }

  // ---- supporting facts

  lemma EmptyRepresents(value: seq<Byte>, index: nat, n: nat)
    requires |value| == META_SIZE + n * 1 * 2 && index <= 0xFFFF
    requires value[0] == ByteOf(index / 256) && value[1] == ByteOf(index) && value[2] == 1
    requires forall k :: META_SIZE <= k < |value| ==> value[k] == 0
    ensures Represents(value, index, 1, seq(n, _ => 0))
  {
    OffsetIs(1, n);
    assert value == ZeroBytes(index, 1, n);
    ZeroRepresents(index, 1, n);
  }

  lemma OffsetAdded(offsets: map<nat, nat>, vbuckets: seq<nat>, size: nat, i: nat)
    requires DistinctVbs(vbuckets) && i < |vbuckets| && OffsetsFor(offsets, vbuckets[..i], size)
    ensures OffsetsFor(offsets[vbuckets[i] := Offset(size, i)], vbuckets[..i + 1], size)
  {
    var r := offsets[vbuckets[i] := Offset(size, i)];
    var shorter, longer := vbuckets[..i], vbuckets[..i + 1];
    VbAdded(vbuckets, i);
    forall k | 0 <= k < |longer|
      ensures OffsetOf(r, longer[k], size, k)
    {
      if k < i {
        assert longer[k] == shorter[k] != vbuckets[i];
        assert OffsetOf(offsets, shorter[k], size, k);
      } else {
        assert longer[k] == vbuckets[i];
      }
    }
  }

  lemma VbAdded(vbuckets: seq<nat>, i: nat)
    requires i < |vbuckets|
    ensures VbSet(vbuckets[..i + 1]) == VbSet(vbuckets[..i]) + {vbuckets[i]}
  {
    assert vbuckets[..i + 1] == vbuckets[..i] + [vbuckets[i]];
  }

  lemma {:induction false} VbCount(vbuckets: seq<nat>)
    requires DistinctVbs(vbuckets)
    ensures |VbSet(vbuckets)| == |vbuckets|
  {
    if vbuckets != [] {
      var n := |vbuckets| - 1;
      var rest := vbuckets[..n];
      VbCount(rest);
      assert vbuckets == rest + [vbuckets[n]];
      assert VbSet(vbuckets) == VbSet(rest) + {vbuckets[n]};
      assert vbuckets[n] !in rest;
    }
  }

  /** Once every sequence is in its new place and the size is set, the bytes stand for the same clock. */
  lemma WidenedRepresents(value: seq<Byte>, index: nat, newSize: nat, clocks: seq<nat>, before: seq<Byte>, oldSize: nat)
    requires 1 <= oldSize < newSize <= 4 && PartlyWidened(before, oldSize, newSize, clocks, -1)
    requires |before| >= META_SIZE && before[..2] == Encode(index, 2) && value == before[2 := newSize]
    requires forall i :: 0 <= i < |clocks| ==> clocks[i] <= MaxSequence(oldSize)
    ensures Represents(value, index, newSize, clocks)
  {
    assert value[..2] == before[..2];
    forall i | 0 <= i < |clocks|
      ensures SlotHolds(value, newSize, i, clocks[i])
    {
      assert SlotHolds(before, newSize, i, clocks[i]);
      assert Slot(value, newSize, i) == Slot(before, newSize, i);
    }
  }

  ghost function ClockOf(vbuckets: seq<nat>, clocks: seq<nat>): map<nat, nat>
    requires |vbuckets| == |clocks|
  {
    if vbuckets == [] then map[]
    else
      var n := |vbuckets| - 1;
      ClockOf(vbuckets[..n], clocks[..n])[vbuckets[n] := clocks[n]]
  }

  lemma {:induction false} ClockAt(vbuckets: seq<nat>, clocks: seq<nat>, i: nat)
    requires |vbuckets| == |clocks| && DistinctVbs(vbuckets) && i < |vbuckets|
    ensures vbuckets[i] in ClockOf(vbuckets, clocks) && ClockOf(vbuckets, clocks)[vbuckets[i]] == clocks[i]
  {
    var n := |vbuckets| - 1;
    if i < n {
      ClockAt(vbuckets[..n], clocks[..n], i);
    }
  }

  lemma {:induction false} ClockKeys(vbuckets: seq<nat>, clocks: seq<nat>)
    requires |vbuckets| == |clocks|
    ensures ClockOf(vbuckets, clocks).Keys == VbSet(vbuckets)
  {
    if vbuckets != [] {
      var n := |vbuckets| - 1;
      ClockKeys(vbuckets[..n], clocks[..n]);
      assert vbuckets == vbuckets[..n] + [vbuckets[n]];
    }
  }

  lemma {:induction false} ClockUpdated(vbuckets: seq<nat>, clocks: seq<nat>, i: nat, v: nat)
    requires |vbuckets| == |clocks| && DistinctVbs(vbuckets) && i < |vbuckets|
    ensures ClockOf(vbuckets, clocks[i := v]) == ClockOf(vbuckets, clocks)[vbuckets[i] := v]
  {
    var n := |vbuckets| - 1;
    if i < n {
      ClockUpdated(vbuckets[..n], clocks[..n], i, v);
      assert clocks[i := v][..n] == clocks[..n][i := v];
    } else {
      assert clocks[i := v][..n] == clocks[..n];
    }
  }
}
