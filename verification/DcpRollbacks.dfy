/** Runs of a backfill in which vbuckets are rolled back (base/dcp_feed.go:242-288): when it ends, and when its numbers
    are right. */
module DcpRollbacks {
  import opened DcpBackfillSpec

  predicate InRange(vbs: seq<VbProgress>, updates: seq<Update>) {
    forall k :: 0 <= k < |updates| ==> updates[k].vb < |vbs|
  }

  /** Where the vbuckets stand after the first j updates. */
  function VbsAt(b: Backfill, vbs: seq<VbProgress>, updates: seq<Update>, j: nat): seq<VbProgress>
    requires InRange(vbs, updates) && j <= |updates|
  {
    Run(b, vbs, updates[..j]).1
  }

  /** Something is still to come, and no rollback has taken away more than was received. */
  predicate Going(vbs: seq<VbProgress>) {
    0 <= Total(vbs) && !AllDone(vbs)
  }

  ghost predicate AlwaysGoing(b: Backfill, vbs: seq<VbProgress>, updates: seq<Update>)
    requires InRange(vbs, updates)
  {
    forall j :: 0 <= j <= |updates| ==> Going(VbsAt(b, vbs, updates, j))
  }

  ghost predicate NeverNegative(b: Backfill, vbs: seq<VbProgress>, updates: seq<Update>)
    requires InRange(vbs, updates)
  {
    forall j :: 0 <= j <= |updates| ==> 0 <= Total(VbsAt(b, vbs, updates, j))
  }

  // ---- when a backfill ends

  lemma PrefixAt(b: Backfill, vbs: seq<VbProgress>, updates: seq<Update>, m: nat, j: nat)
    requires InRange(vbs, updates) && j <= m <= |updates|
    ensures VbsAt(b, vbs, updates[..m], j) == VbsAt(b, vbs, updates, j)
  {
    assert updates[..m][..j] == updates[..j];
  }

  /** What holds of every state holds of all before the last, and of the last. */
  lemma GoingMore(b: Backfill, vbs: seq<VbProgress>, updates: seq<Update>)
    requires InRange(vbs, updates) && updates != []
    ensures var last := Run(b, vbs, updates).1;
      var before := updates[..|updates| - 1];
      && (AlwaysGoing(b, vbs, updates) <==> AlwaysGoing(b, vbs, before) && Going(last))
      && (NeverNegative(b, vbs, updates) <==> NeverNegative(b, vbs, before) && 0 <= Total(last))
  {
    var n := |updates| - 1;
    assert updates[..|updates|] == updates;
    assert VbsAt(b, vbs, updates, n + 1) == Run(b, vbs, updates).1;
    forall j | 0 <= j <= n
      ensures VbsAt(b, vbs, updates[..n], j) == VbsAt(b, vbs, updates, j)
    {
      PrefixAt(b, vbs, updates, n, j);
    }
  }

  lemma NoUpdates(b: Backfill, vbs: seq<VbProgress>)
    ensures AlwaysGoing(b, vbs, []) <==> Going(vbs)
    ensures NeverNegative(b, vbs, []) <==> 0 <= Total(vbs)
  {
    var none: seq<Update> := [];
    assert none[..0] == none;
    assert VbsAt(b, vbs, none, 0) == vbs;
  }

  /** The books hold as long as the backfill is active. */
  lemma {:induction false} ActiveBooks(b: Backfill, vbs: seq<VbProgress>, updates: seq<Update>)
    requires InRange(vbs, updates) && Books(b, vbs)
    ensures var (b', vbs') := Run(b, vbs, updates); b'.active ==> Books(b', vbs')
  {
    if updates != [] {
      var n := |updates| - 1;
      ActiveBooks(b, vbs, updates[..n]);
      var (b0, vbs0) := Run(b, vbs, updates[..n]);
      if b0.active {
        UpdateKeepsBooks(b0, vbs0, updates[n].vb, updates[n].sequence);
      }
    }
  }

  /** In every run, rollbacks included, the backfill is active exactly while every state so far had a vbucket not done
      and a total that was not negative. */
  lemma {:induction false} ActiveIffAlwaysGoing(b: Backfill, vbs: seq<VbProgress>, updates: seq<Update>)
    requires InRange(vbs, updates) && Books(b, vbs)
    ensures Run(b, vbs, updates).0.active <==> AlwaysGoing(b, vbs, updates)
  {
    if updates == [] {
      NoUpdates(b, vbs);
    } else {
      var n := |updates| - 1;
      var (b0, vbs0) := Run(b, vbs, updates[..n]);
      ActiveIffAlwaysGoing(b, vbs, updates[..n]);
      ActiveBooks(b, vbs, updates[..n]);
      GoingMore(b, vbs, updates);
      if b0.active {
        UpdateKeepsBooks(b0, vbs0, updates[n].vb, updates[n].sequence);
      }
    }
  }

  // ---- when its numbers are right

  /** Both numbers that a backfill reports are what the positions say. */
  predicate TellsTheTruth(b: Backfill, vbs: seq<VbProgress>) {
    b.received == Reached(vbs) && (b.active <==> exists i :: 0 <= i < |vbs| && BelowEnd(vbs[i]))
  }

  predicate BelowEnd(p: VbProgress) {
    InBackfill(p) && p.current < p.end
  }

  /** No vbucket that was done has been rolled back to below its end. */
  predicate NoneFellBack(vbs: seq<VbProgress>) {
    forall i :: 0 <= i < |vbs| && !vbs[i].active ==> !BelowEnd(vbs[i])
  }

  lemma {:induction false} ReachedBounds(vbs: seq<VbProgress>)
    ensures Reached(vbs) <= Expected(vbs)
    ensures AllSound(vbs) ==> Reached(vbs) <= Total(vbs)
    ensures AllSound(vbs) ==> (Reached(vbs) == Total(vbs) <==> NoneFellBack(vbs))
  {
    if vbs != [] {
      var n := |vbs| - 1;
      ReachedBounds(vbs[..n]);
      assert NoneFellBack(vbs) <==> NoneFellBack(vbs[..n]) && (!vbs[n].active ==> !BelowEnd(vbs[n]));
    }
  }

  /** What the last state of a run can be: under way, ended with all done, or ended by a negative total. */
  lemma {:induction false} Outcome(b: Backfill, vbs: seq<VbProgress>, updates: seq<Update>)
    requires InRange(vbs, updates) && Books(b, vbs)
    ensures var (b', vbs') := Run(b, vbs, updates);
      && Expected(vbs') == Expected(vbs)
      && (b'.active ==> Books(b', vbs') && NeverNegative(b, vbs, updates))
      && (!b'.active && NeverNegative(b, vbs, updates) ==> AllDone(vbs') && b'.received == Expected(vbs'))
      && (!NeverNegative(b, vbs, updates) ==> !b'.active && b'.received > Expected(vbs'))
  {
    var (b', vbs') := Run(b, vbs, updates);
    if updates == [] {
      NoUpdates(b, vbs);
      EndedHow(b, vbs);
    } else {
      var n := |updates| - 1;
      var (b0, vbs0) := Run(b, vbs, updates[..n]);
      var u := updates[n];
      Outcome(b, vbs, updates[..n]);
      GoingMore(b, vbs, updates);
      if b0.active {
        UpdateKeepsBooks(b0, vbs0, u.vb, u.sequence);
        UpdateKeepsExpected(b0, vbs0, u);
        EndedHow(b', vbs');
      } else {
        MovesOnly(b0, vbs0, u);
      }
    }
  }

  /** At the moment a backfill has ended: either all is received, or the count has wrapped around. */
  lemma EndedHow(b: Backfill, vbs: seq<VbProgress>)
    requires Books(b, vbs)
    ensures !b.active && 0 <= Total(vbs) ==> AllDone(vbs) && b.received == Expected(vbs)
    ensures Total(vbs) < 0 ==> !b.active && b.received > Expected(vbs)
  {
    TotalBounds(vbs);
    ExpectedBound(vbs);
  }

  lemma UpdateKeepsExpected(b: Backfill, vbs: seq<VbProgress>, u: Update)
    requires u.vb < |vbs|
    ensures Expected(Updated(b, vbs, u.vb, u.sequence).1) == Expected(vbs)
  {
    BoundsStay(vbs, u.vb, Updated(b, vbs, u.vb, u.sequence).1[u.vb]);
    assert Updated(b, vbs, u.vb, u.sequence).1 == vbs[u.vb := Updated(b, vbs, u.vb, u.sequence).1[u.vb]];
  }

  /** After the end positions move, but the books do not. */
  lemma MovesOnly(b: Backfill, vbs: seq<VbProgress>, u: Update)
    requires u.vb < |vbs| && !b.active
    ensures var (b', vbs') := Updated(b, vbs, u.vb, u.sequence);
      && b' == b && Expected(vbs') == Expected(vbs)
      && (AllDone(vbs) ==> AllDone(vbs') && 0 <= Total(vbs'))
  {
    var vbs' := Updated(b, vbs, u.vb, u.sequence).1;
    UpdateKeepsExpected(b, vbs, u);
    if AllDone(vbs) {
      assert forall i :: 0 <= i < |vbs| ==> vbs'[i].active == vbs[i].active;
      TotalBounds(vbs');
    }
  }

  /** After any run the number received and the active flag are what the positions say exactly if the total never fell
      below zero and no vbucket that was done stands below its end. */
  lemma TruthIff(b: Backfill, vbs: seq<VbProgress>, updates: seq<Update>)
    requires InRange(vbs, updates) && Books(b, vbs)
    ensures var (b', vbs') := Run(b, vbs, updates);
      TellsTheTruth(b', vbs') <==> NeverNegative(b, vbs, updates) && NoneFellBack(vbs')
  {
    var (b', vbs') := Run(b, vbs, updates);
    Outcome(b, vbs, updates);
    ReachedBounds(vbs');
    if b'.active {
      TotalBounds(vbs');
      ExpectedBound(vbs');
      var i :| 0 <= i < |vbs'| && vbs'[i].active;
      assert Sound(vbs'[i]) && BelowEnd(vbs'[i]);
    } else if NeverNegative(b, vbs, updates) {
      TotalBounds(vbs');
    }
  }

  // ---- runs whose numbers are wrong

  /** Two vbuckets with a backfill from 0 to 4; the first is done, rolled back to 2, and then the second is done. */
  lemma FallingBackIsMissed()
    ensures var vbs := [VbProgress(0, 4, 0, true), VbProgress(0, 4, 0, true)];
      var updates := [Update(0, 4), Update(0, 2), Update(1, 4)];
      && Books(Backfill(true, 0, 8), vbs) && AllExact(vbs) && InRange(vbs, updates)
      && var (b', vbs') := Run(Backfill(true, 0, 8), vbs, updates);
         b' == Backfill(false, 8, 8) && vbs'[0].current == 2 && BelowEnd(vbs'[0])
  {
    var vbs := [VbProgress(0, 4, 0, true), VbProgress(0, 4, 0, true)];
    var b := Backfill(true, 0, 8);
    TwoVbs(vbs);
    var updates := [Update(0, 4), Update(0, 2), Update(1, 4)];
    var vbs1 := vbs[0 := VbProgress(0, 4, 4, false)];
    var vbs2 := vbs[0 := VbProgress(0, 4, 2, false)];
    assert updates[..2] == [Update(0, 4), Update(0, 2)] && updates[..2][..1] == [Update(0, 4)];
    assert updates[..2][..1][..0] == [];
    assert Run(b, vbs, [Update(0, 4)]) == (Backfill(true, 4, 8), vbs1);
    assert vbs1[0 := VbProgress(0, 4, 2, false)] == vbs2;
    assert updates[..2][..1] == [Update(0, 4)] && updates[..2][1] == Update(0, 2);
    assert Updated(Backfill(true, 4, 8), vbs1, 0, 2) == (Backfill(true, 4, 8), vbs2);
    assert Run(b, vbs, updates[..2]) == (Backfill(true, 4, 8), vbs2);
  }

  lemma TwoVbs(vbs: seq<VbProgress>)
    requires |vbs| == 2
    ensures Total(vbs) == Contribution(vbs[0]) + Contribution(vbs[1])
    ensures EndSum(vbs) == vbs[0].end + vbs[1].end
    ensures InBackfill(vbs[0]) && InBackfill(vbs[1]) ==>
      Expected(vbs) == vbs[0].end - vbs[0].start + vbs[1].end - vbs[1].start
  {
    var first := vbs[..1];
    assert first[..0] == [] && first == [vbs[0]];
    assert Total(first[..0]) == 0 && EndSum(first[..0]) == 0 && Expected(first[..0]) == 0;
    assert Total(first) == Contribution(vbs[0]) && EndSum(first) == vbs[0].end;
  }

  /** A rollback of one vbucket to before its start ends a backfill of which nothing has been received. */
  lemma RollbackEndsBackfill()
    ensures var vbs := [VbProgress(5, 10, 5, true), VbProgress(0, 4, 0, true)];
      var b := Backfill(true, 0, 9);
      Books(b, vbs) && AllExact(vbs) && !Updated(b, vbs, 0, 3).0.active
  {
    TwoVbs([VbProgress(5, 10, 5, true), VbProgress(0, 4, 0, true)]);
  }
}
