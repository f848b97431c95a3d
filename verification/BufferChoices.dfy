/** What the pending queue waits for and what it does not (db/change_cache.go:661-680, 758-776). */
module BufferChoices {
  import opened SequenceBufferSpec
  import opened SequenceBufferRuns

  /** If every head has waited too long, nothing stays pending. */
  lemma {:induction false} AllWaitedTooLong(b: Buffer, maxNum: nat, waitedTooLong: nat -> bool, k: nat)
    requires Ahead(b) && forall j :: k <= j ==> waitedTooLong(j)
    ensures Drained(b, maxNum, waitedTooLong, k).pending == {}
    decreases |b.pending|, if b.pending == {} then 0 else Least(b.pending).seqNo - b.next
  {
    if b.pending != {} {
      var head := Least(b.pending);
      if head.seqNo == b.next {
        AllWaitedTooLong(Popped(b, head), maxNum, waitedTooLong, k);
      } else {
        AllWaitedTooLong(Skipped(b), maxNum, waitedTooLong, k + 1);
      }
    }
  }

  /** If none has, and the queue is within its maximum, nothing is skipped: the next sequence moves only past sequences
      that have been received. */
  lemma {:induction false} NoneWaitedTooLong(b: Buffer, maxNum: nat, waitedTooLong: nat -> bool, k: nat)
    requires Ahead(b) && |b.pending| <= maxNum && forall j :: !waitedTooLong(j)
    ensures Drained(b, maxNum, waitedTooLong, k).skipped == b.skipped
    ensures forall s :: b.next <= s < Drained(b, maxNum, waitedTooLong, k).next ==> s in b.received
    decreases |b.pending|
  {
    if b.pending != {} {
      var head := Least(b.pending);
      if head.seqNo == b.next {
        assert |b.pending - {head}| < |b.pending|;
        NoneWaitedTooLong(Popped(b, head), maxNum, waitedTooLong, k);
      }
    }
  }

  /** A change ahead of the next sequence that finds room in the queue is only put there. */
  lemma AheadOnlyWaits(b: Buffer, change: Change, maxNum: nat, waitedTooLong: nat -> bool)
    requires Ordered(b) && b.next < change.seqNo && change.seqNo !in b.received
    requires |b.pending + {change}| <= maxNum
    ensures Apply(b, Arrive(change, waitedTooLong), maxNum) ==
      b.(received := b.received + {change.seqNo}, pending := b.pending + {change})
  {
  }

  /** A change below the next sequence is passed on at once, as late if it was skipped and as unexpected otherwise. One
      from before the start, or one received before, is not passed on. */
  lemma LateIsPassedOn(b: Buffer, change: Change, maxNum: nat, waitedTooLong: nat -> bool)
    requires Ordered(b) && change.seqNo < b.next
    ensures var r := Apply(b, Arrive(change, waitedTooLong), maxNum);
      && r.next == b.next && r.pending == b.pending
      && r.additions ==
         if change.seqNo <= b.initial || change.seqNo in b.received then b.additions
         else b.additions + [Addition(change, if change.seqNo in b.skipped then Late else Unexpected)]
  {
  }

  /** Nothing is given up that was not skipped. */
  lemma GivenUpWasSkipped(b: Buffer, sequences: seq<nat>, maxNum: nat, s: nat)
    requires Ordered(b)
    ensures s in Apply(b, Abandon(sequences), maxNum).givenUp <==> s in b.givenUp || (s in b.skipped && s in sequences)
    ensures s in Apply(b, Abandon(sequences), maxNum).skipped <==> s in b.skipped && s !in sequences
  {
    WithoutMembers(b.skipped, set x | x in sequences);
  }
}
