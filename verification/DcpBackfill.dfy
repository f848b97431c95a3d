/** The receiver of a DCP feed and its backfill tracking (base/dcp_feed.go:270-288, 651-739), with the fields that
    the source updates in place. */
module DcpBackfill {
  import opened DcpBackfillSpec

  class BackfillStatus {
    var active: bool
    var vbActive: seq<bool>
    var receivedSequences: nat
    var expectedSequences: nat
    var endSeqs: seq<nat>
    ghost var startSeqs: seq<nat>

    ghost predicate Shaped(n: nat)
      reads this
    {
      |vbActive| == n && |endSeqs| == n && |startSeqs| == n
    }

    ghost function View(): Backfill
      reads this
    {
      Backfill(active, receivedSequences, expectedSequences)
    }

    ghost function Progress(seqs: seq<nat>): (vbs: seq<VbProgress>)
      requires Shaped(|seqs|)
      reads this
      ensures |vbs| == |seqs| && forall i :: 0 <= i < |seqs| ==>
        vbs[i] == VbProgress(startSeqs[i], endSeqs[i], seqs[i], vbActive[i])
    {
      ProgressOf(startSeqs, endSeqs, seqs, vbActive)
    }

    constructor ()
      ensures !active && receivedSequences == 0
    {
      active, vbActive, receivedSequences, expectedSequences, endSeqs := false, [], 0, 0, [];
      startSeqs := [];
    }

    /** Starts tracking; `end` gives the sequences at which the backfill of each vbucket is complete. */
    method Init(start: seq<nat>, end: map<nat, nat>)
      requires !active && receivedSequences == 0
      modifies this
      ensures Shaped(|start|) && startSeqs == start && endSeqs == Ends(end, |start|)
      ensures receivedSequences == 0 && expectedSequences == Wrap64(Expected(Progress(start)))
      ensures forall i :: 0 <= i < |start| ==>
        endSeqs[i] == (if i in end then end[i] else 0) && (vbActive[i] <==> endSeqs[i] > start[i])
      ensures active <==> exists i :: 0 <= i < |start| && endSeqs[i] > start[i]
      ensures AllExact(Progress(start))
      ensures EndSum(Progress(start)) < TWO_64 ==> Books(View(), Progress(start))
    {
      var n := |start|;
      vbActive, endSeqs, expectedSequences := seq(n, _ => false), seq(n, _ => 0), 0;
      startSeqs := start;
      ghost var plain := ProgressOf(start, Ends(end, n), start, vbActive);
      InitVbs(start, end, plain);
      assert endSeqs == Ends(end, n);
      FreshBooks(View(), plain, Progress(start));
    }

    /** The loop of Init. */
    method InitVbs(start: seq<nat>, end: map<nat, nat>, ghost plain: seq<VbProgress>)
      requires Shaped(|start|) && !active && expectedSequences == 0
      requires |plain| == |start|
      requires forall i :: 0 <= i < |start| ==> plain[i] == VbProgress(start[i], EndOf(end, i), start[i], false)
      requires forall i :: 0 <= i < |start| ==> !vbActive[i]
      modifies this`active, this`vbActive, this`expectedSequences, this`endSeqs
      ensures Shaped(|start|) && expectedSequences == Wrap64(Expected(plain)) && (active <==> Expected(plain) > 0)
      ensures forall i :: 0 <= i < |start| ==> endSeqs[i] == plain[i].end && (vbActive[i] <==> InBackfill(plain[i]))
    {
      for vbNo := 0 to |start|
        invariant Shaped(|start|)
        invariant forall i :: 0 <= i < vbNo ==> endSeqs[i] == plain[i].end && (vbActive[i] <==> InBackfill(plain[i]))
        invariant forall i :: vbNo <= i < |start| ==> !vbActive[i]
        invariant expectedSequences == Wrap64(Expected(plain[..vbNo])) && (active <==> Expected(plain[..vbNo]) > 0)
      {
        PartialExpected(plain, vbNo);
        InitVb(vbNo, start[vbNo], if vbNo in end then end[vbNo] else 0);
      }
      assert plain[..|start|] == plain;
    }

    /** One vbucket of Init. */
    method InitVb(vbNo: nat, start: nat, end: nat)
      requires vbNo < |vbActive| == |endSeqs| && expectedSequences < TWO_64
      modifies this`active, this`vbActive, this`expectedSequences, this`endSeqs
      ensures endSeqs == old(endSeqs)[vbNo := end]
      ensures vbActive == if end > start then old(vbActive)[vbNo := true] else old(vbActive)
      ensures expectedSequences == Wrap64(old(expectedSequences) + if end > start then end - start else 0)
      ensures active == (old(active) || end > start)
    {
      endSeqs := endSeqs[vbNo := end];
      if end > start {
        expectedSequences := Wrap64(expectedSequences + (end - start));
        vbActive := vbActive[vbNo := true];
        active := true;
      }
    }

    method UpdateStats(vbno: nat, previousVbSequence: nat, currentSequences: seq<nat>, ghost previous: seq<nat>)
      requires active && vbno < |currentSequences| && Shaped(|currentSequences|)
      requires |previous| == |currentSequences| && previousVbSequence == previous[vbno]
      requires currentSequences == previous[vbno := currentSequences[vbno]]
      modifies this`active, this`vbActive, this`receivedSequences
      ensures Shaped(|currentSequences|)
      ensures (View(), Progress(currentSequences)) ==
        Updated(old(View()), old(Progress(previous)), vbno, currentSequences[vbno])
    {
      ghost var before := Progress(previous);
      if !vbActive[vbno] {
        assert Progress(currentSequences) == before[vbno := before[vbno].(current := currentSequences[vbno])];
        return;
      }
      var currentVbSequence := currentSequences[vbno];
      var backfillDelta;
      if currentVbSequence >= endSeqs[vbno] {
        backfillDelta := Wrap64(endSeqs[vbno] - previousVbSequence);
        vbActive := vbActive[vbno := false];
      } else {
        backfillDelta := Wrap64(currentVbSequence - previousVbSequence);
      }
      receivedSequences := Wrap64(receivedSequences + backfillDelta);
      if receivedSequences >= expectedSequences {
        active := false;
      }
      assert Progress(currentSequences) == before[vbno := Moved(before[vbno], currentVbSequence)];
    }
  }

  class DCPReceiver {
    var seqs: seq<nat>
    var backfill: BackfillStatus

    ghost predicate Valid()
      reads this, backfill
    {
      backfill.Shaped(|seqs|)
    }

    constructor (initial: seq<nat>, highSeqnos: map<nat, nat>)
      ensures Valid() && fresh(backfill) && seqs == initial
      ensures backfill.startSeqs == initial && backfill.endSeqs == Ends(highSeqnos, |initial|)
      ensures AllExact(backfill.Progress(seqs))
      ensures EndSum(backfill.Progress(seqs)) < TWO_64 ==> Books(backfill.View(), backfill.Progress(seqs))
    {
      seqs := initial;
      backfill := new BackfillStatus();
      new;
      backfill.Init(seqs, highSeqnos);
    }

    method UpdateSeq(vbucketId: nat, sequence: nat)
      requires Valid() && vbucketId < |seqs|
      modifies this`seqs, backfill
      ensures Valid() && seqs == old(seqs)[vbucketId := sequence]
      ensures (backfill.View(), backfill.Progress(seqs)) ==
              Updated(old(backfill.View()), old(backfill.Progress(seqs)), vbucketId, sequence)
    {
      ghost var before := backfill.Progress(seqs);
      var previousSequence := seqs[vbucketId];
      seqs := seqs[vbucketId := sequence];
      if backfill.active {
        backfill.UpdateStats(vbucketId, previousSequence, seqs, old(seqs));
      } else {
        assert backfill.Progress(seqs) == before[vbucketId := before[vbucketId].(current := sequence)];
      }
    }

    /** A run of updates ends where the specification says, so that all that holds of its runs holds of the receiver. */
    method UpdateAll(updates: seq<Update>)
      requires Valid() && forall k :: 0 <= k < |updates| ==> updates[k].vb < |seqs|
      modifies this`seqs, backfill
      ensures Valid() && |seqs| == old(|seqs|)
      ensures (backfill.View(), backfill.Progress(seqs)) ==
        Run(old(backfill.View()), old(backfill.Progress(seqs)), updates)
    {
      for k := 0 to |updates|
        invariant Valid() && |seqs| == old(|seqs|)
        invariant (backfill.View(), backfill.Progress(seqs)) ==
          Run(old(backfill.View()), old(backfill.Progress(seqs)), updates[..k])
      {
        assert updates[..k + 1][..k] == updates[..k];
        UpdateSeq(updates[k].vb, updates[k].sequence);
      }
      assert updates[..|updates|] == updates;
    }
  }

  // ---- supporting definitions

  function EndOf(end: map<nat, nat>, vb: nat): nat {
    if vb in end then end[vb] else 0
  }

  function Ends(end: map<nat, nat>, n: nat): seq<nat> {
    seq(n, i requires 0 <= i < n => EndOf(end, i))
  }

  function ProgressOf(starts: seq<nat>, ends: seq<nat>, seqs: seq<nat>, flags: seq<bool>): (vbs: seq<VbProgress>)
    requires |starts| == |ends| == |seqs| == |flags|
    ensures |vbs| == |seqs|
  {
    seq(|seqs|, i requires 0 <= i < |seqs| => VbProgress(starts[i], ends[i], seqs[i], flags[i]))
  }

  lemma PartialExpected(vbs: seq<VbProgress>, k: nat)
    requires k < |vbs|
    ensures var more := if InBackfill(vbs[k]) then vbs[k].end - vbs[k].start else 0;
      && Expected(vbs[..k + 1]) == Expected(vbs[..k]) + more
      && Wrap64(Wrap64(Expected(vbs[..k])) + more) == Wrap64(Expected(vbs[..k + 1]))
  {
    assert vbs[..k + 1][..k] == vbs[..k];
    var more := if InBackfill(vbs[k]) then vbs[k].end - vbs[k].start else 0;
    WrapAdd(Expected(vbs[..k]), more);
    WrapAdd(Wrap64(Expected(vbs[..k])), more);
    assert Wrap64(Wrap64(Expected(vbs[..k]))) == Wrap64(Expected(vbs[..k]));
  }

  /** At the start nothing has been received, and the backfill is active if any vbucket is behind. */
  lemma FreshBooks(b: Backfill, plain: seq<VbProgress>, vbs: seq<VbProgress>)
    requires |plain| == |vbs|
    requires forall i :: 0 <= i < |vbs| ==> vbs[i] == plain[i].(active := vbs[i].active)
    requires forall i :: 0 <= i < |vbs| ==> vbs[i].current == vbs[i].start && (vbs[i].active <==> InBackfill(vbs[i]))
    requires b.received == 0 && b.expected == Wrap64(Expected(plain))
    requires b.active <==> Expected(plain) > 0
    ensures Expected(plain) == Expected(vbs) && (b.active <==> !AllDone(vbs)) && AllExact(vbs)
    ensures EndSum(vbs) < TWO_64 ==> Books(b, vbs)
  {
    FreshTotals(plain, vbs);
    TotalBounds(vbs);
    ExpectedBound(vbs);
  }

  lemma {:induction false} FreshTotals(plain: seq<VbProgress>, vbs: seq<VbProgress>)
    requires |plain| == |vbs|
    requires forall i :: 0 <= i < |vbs| ==> vbs[i] == plain[i].(active := vbs[i].active)
    requires forall i :: 0 <= i < |vbs| ==> vbs[i].current == vbs[i].start && (vbs[i].active <==> InBackfill(vbs[i]))
    ensures Expected(plain) == Expected(vbs) && EndSum(plain) == EndSum(vbs) && Total(vbs) == 0
  {
    if vbs != [] {
      var n := |vbs| - 1;
      FreshTotals(plain[..n], vbs[..n]);
    }
  }
}
