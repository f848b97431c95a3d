/** Sequence IDs of the integer-sequence feed (db/sequence_id.go) and their order. */
module SequenceIds {
  import opened Numbers

  /** `triggeredBy` is the sequence of the grant that caused a backfill, 0 if none; `lowSeq` is the lowest
      contiguous sequence, 0 if none. */
  datatype SequenceID = SequenceID(seqNo: nat, triggeredBy: nat, lowSeq: nat) {
    function SafeSequence(): nat {
      if lowSeq > 0 then lowSeq else seqNo
    }

    /** What a grant at sequence n triggers comes before n itself. */
    predicate Before(other: SequenceID) {
      if triggeredBy == other.triggeredBy then SafeSequence() < other.SafeSequence()
      else if triggeredBy == 0 then SafeSequence() < other.triggeredBy
      else if other.triggeredBy == 0 then triggeredBy <= other.SafeSequence()
      else triggeredBy < other.triggeredBy
    }
  }

  const MAX_SEQUENCE_ID := SequenceID(MAX_UINT64, 0, 0)

  /** The IDs that feed entries carry. */
  predicate Plain(id: SequenceID) {
    id.lowSeq == 0 && id.Before(MAX_SEQUENCE_ID)
  }

  /** On the IDs of feed entries, Before is a strict total order. */
  lemma BeforeIsStrictTotalOrder(a: SequenceID, b: SequenceID, c: SequenceID)
    requires a.lowSeq == b.lowSeq == c.lowSeq == 0
    ensures !a.Before(a)
    ensures a.Before(b) && b.Before(c) ==> a.Before(c)
    ensures a.Before(b) || b.Before(a) || a == b
    ensures !(a.Before(b) && b.Before(a))
  {
  }

  /** An ID counts as the sequence that triggered it, or as its own if none did. Of the IDs that count the same, the
      triggered ones come first, in order of their own sequences, and the sequence itself comes last. */
  lemma BeforeMeans(a: SequenceID, b: SequenceID)
    requires a.lowSeq == b.lowSeq == 0
    ensures var n := if a.triggeredBy == 0 then a.seqNo else a.triggeredBy;
      var m := if b.triggeredBy == 0 then b.seqNo else b.triggeredBy;
      a.Before(b) <==> n < m || (n == m && a.triggeredBy != 0 && (b.triggeredBy == 0 || a.seqNo < b.seqNo))
  {
  }

  /** With low sequences it is not even antisymmetric up to equality: IDs that differ can be unordered. */
  lemma LowSequenceHidesOrder()
    ensures exists a: SequenceID, b: SequenceID :: a != b && !a.Before(b) && !b.Before(a)
  {
    var a, b := SequenceID(7, 0, 3), SequenceID(9, 0, 3);
    assert !a.Before(b) && !b.Before(a);
  }
}
