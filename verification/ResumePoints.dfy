/** From where a reader of the changes feed resumes (db/changes.go:422-430, 614; db/sequence_id.go:317-322), and what it
    can miss by that. */
module ResumePoints {
  import opened Options
  import opened LogEntries
  import opened SequenceBufferSpec
  import opened SequenceBufferRuns
  import opened SequenceIds

  /** The low sequence that is sent with every entry; 0 if there is none. */
  function LowSequence(b: Buffer): nat {
    if b.skipped != [] && b.skipped[0] > 0 then b.skipped[0] - 1 else 0
  }

  /** A reader that resumes after `from` misses nothing: all up to there has been cached or abandoned. */
  ghost predicate SafeAfter(b: Buffer, from: nat) {
    forall s :: b.initial < s <= from ==> s in CachedSeqs(b.additions) || s in Abandoned(b)
  }

  /** An entry up to the stable sequence is sent with an ID to resume from: the low sequence if there is one, otherwise
      its own sequence. That is safe exactly if the oldest skipped sequence, if any, is not the very first one. */
  lemma ResumeIsSafeIff(initial: nat, events: seq<Event>, maxNum: nat, sequence: nat, triggeredBy: nat)
    requires initial < sequence < Run(initial, events, maxNum).next
    ensures var b := Run(initial, events, maxNum);
      var id := SequenceID(sequence, triggeredBy, LowSequence(b));
      && id.SafeSequence() == (if LowSequence(b) > 0 then LowSequence(b) else sequence)
      && (SafeAfter(b, id.SafeSequence()) <==> b.skipped == [] || b.skipped[0] != 1)
  {
    var b := Run(initial, events, maxNum);
    ReceivedIsArrived(initial, events, maxNum);
    if b.skipped != [] {
      LowSequenceIsStable(initial, events, maxNum, 0);
      assert b.skipped[0] in b.skipped;
      Conservation(initial, events, maxNum, b.skipped[0]);
    }
    forall s | b.initial < s < b.next && s !in b.skipped
      ensures s in CachedSeqs(b.additions) || s in Abandoned(b)
    {
      Conservation(initial, events, maxNum, s);
    }
  }

  /** Sequence 1 has been skipped when 2 is sent: there is no low sequence to tell, and a reader that resumes after 2
      never asks for 1 again. */
  lemma FirstSkippedIsMissed()
    ensures var events := [Arrive(Change(2, "d", "1-d", false, map[]), Never), Tick(Always)];
      var b := Run(0, events, 5);
      && b.skipped == [1] && b.next == 3 && LowSequence(b) == 0
      && !SafeAfter(b, SequenceID(2, 0, LowSequence(b)).SafeSequence())
  {
    var c := Change(2, "d", "1-d", false, map[]);
    AheadWaits(c);
    TickSkips(c);
    ResumeIsSafeIff(0, [Arrive(c, Never), Tick(Always)], 5, 2, 0);
  }

  lemma AheadWaits(c: Change)
    requires c.seqNo == 2
    ensures Run(0, [Arrive(c, Never)], 5) == Fresh(0).(received := {2}, pending := {c})
  {
    var events := [Arrive(c, Never)];
    assert events[..0] == [];
    assert Run(0, [], 5) == Fresh(0);
  }

  lemma TickSkips(c: Change)
    requires c.seqNo == 2
    ensures var b := Run(0, [Arrive(c, Never), Tick(Always)], 5);
      b.skipped == [1] && b.next == 3
  {
    var events := [Arrive(c, Never), Tick(Always)];
    assert events[..1] == [Arrive(c, Never)];
    AheadWaits(c);
    OneSkipped(Run(0, events[..1], 5), c);
  }

  function Never(k: nat): bool {
    false
  }

  function Always(k: nat): bool {
    true
  }

  lemma OneSkipped(b: Buffer, c: Change)
    requires b == Fresh(0).(received := {2}, pending := {c}) && c.seqNo == 2
    ensures Ahead(b) && Drained(b, 5, Always, 0).skipped == [1] && Drained(b, 5, Always, 0).next == 3
  {
    assert Least(b.pending) == c;
    var b2 := Skipped(b);
    assert b2.pending == {c} && b2.next == 2 && Least(b2.pending) == c;
    var b3 := Popped(b2, c);
    assert b3.pending == {} && b3.next == 3;
    assert Drained(b3, 5, Always, 1) == b3;
    assert Drained(b2, 5, Always, 1) == b3;
  }
}
