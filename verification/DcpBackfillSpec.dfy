/** Backfill progress of a DCP feed as a value (base/dcp_feed.go:651-739). */
module DcpBackfillSpec {

  const TWO_64: int := 0x1_0000_0000_0000_0000

  /** Unsigned 64-bit arithmetic. */
  function Wrap64(x: int): (r: nat)
    ensures r < TWO_64
    ensures 0 <= x < TWO_64 ==> r == x
    ensures -TWO_64 <= x < 0 ==> r == x + TWO_64
  {
    x % TWO_64
  }

  lemma WrapAdd(x: int, y: int)
    ensures Wrap64(Wrap64(x) + Wrap64(y)) == Wrap64(x + y)
  {
    var a, b := x / TWO_64, y / TWO_64;
    assert x == a * TWO_64 + Wrap64(x) && y == b * TWO_64 + Wrap64(y);
    WrapShift(Wrap64(x) + Wrap64(y), a + b);
  }

  lemma WrapShift(x: int, k: int)
    ensures Wrap64(x + k * TWO_64) == Wrap64(x)
  {
    assert (x + k * TWO_64) / TWO_64 == x / TWO_64 + k;
  }

  /** Where one vbucket stands. `start` and `end` bound its part of the backfill. */
  datatype VbProgress = VbProgress(start: nat, end: nat, current: nat, active: bool)

  predicate InBackfill(p: VbProgress) {
    p.end > p.start
  }

  /** What a vbucket has contributed: up to its position while in backfill, all of its part once done with it.
      A rollback to before the start makes this negative. */
  function Contribution(p: VbProgress): int {
    if !InBackfill(p) then 0 else if p.active then p.current - p.start else p.end - p.start
  }

  function Total(vbs: seq<VbProgress>): int {
    if vbs == [] then 0 else Total(vbs[..|vbs| - 1]) + Contribution(vbs[|vbs| - 1])
  }

  function Expected(vbs: seq<VbProgress>): nat {
    if vbs == [] then 0
    else
      var p := vbs[|vbs| - 1];
      Expected(vbs[..|vbs| - 1]) + if InBackfill(p) then p.end - p.start else 0
  }

  function EndSum(vbs: seq<VbProgress>): nat {
    if vbs == [] then 0 else EndSum(vbs[..|vbs| - 1]) + vbs[|vbs| - 1].end
  }

  /** A vbucket still in backfill is below its end. */
  predicate Sound(p: VbProgress) {
    p.active ==> InBackfill(p) && p.current < p.end
  }

  predicate AllSound(vbs: seq<VbProgress>) {
    forall i :: 0 <= i < |vbs| ==> Sound(vbs[i])
  }

  predicate AllDone(vbs: seq<VbProgress>) {
    forall i :: 0 <= i < |vbs| ==> !vbs[i].active
  }

  datatype Backfill = Backfill(active: bool, received: nat, expected: nat)

  // ---- one update

  function Moved(p: VbProgress, sequence: nat): VbProgress {
    p.(current := sequence, active := p.active && sequence < p.end)
  }

  /** Records a vbucket's new position; a backfill under way is brought up to date. */
  function Updated(b: Backfill, vbs: seq<VbProgress>, vb: nat, sequence: nat): (Backfill, seq<VbProgress>)
    requires vb < |vbs|
  {
    var p := vbs[vb];
    if !b.active then (b, vbs[vb := p.(current := sequence)])
    else if !p.active then (b, vbs[vb := p.(current := sequence)])
    else
      var delta := Wrap64((if sequence >= p.end then p.end else sequence) - p.current);
      var received := Wrap64(b.received + delta);
      (b.(received := received, active := received < b.expected), vbs[vb := Moved(p, sequence)])
  }

  // ---- totals

  lemma {:induction false} TotalMoves(vbs: seq<VbProgress>, vb: nat, p: VbProgress)
    requires vb < |vbs|
    ensures Total(vbs[vb := p]) == Total(vbs) - Contribution(vbs[vb]) + Contribution(p)
  {
    var n := |vbs| - 1;
    if vb < n {
      TotalMoves(vbs[..n], vb, p);
      assert vbs[vb := p][..n] == vbs[..n][vb := p];
    } else {
      assert vbs[vb := p][..n] == vbs[..n];
    }
  }

  lemma {:induction false} BoundsStay(vbs: seq<VbProgress>, vb: nat, p: VbProgress)
    requires vb < |vbs| && p.start == vbs[vb].start && p.end == vbs[vb].end
    ensures Expected(vbs[vb := p]) == Expected(vbs) && EndSum(vbs[vb := p]) == EndSum(vbs)
  {
    var n := |vbs| - 1;
    if vb < n {
      BoundsStay(vbs[..n], vb, p);
      assert vbs[vb := p][..n] == vbs[..n][vb := p];
    } else {
      assert vbs[vb := p][..n] == vbs[..n];
    }
  }

  /** The total never passes what is expected, reaches it exactly when all is done, and stays above the lowest value
      that rollbacks can bring about. */
  lemma {:induction false} TotalBounds(vbs: seq<VbProgress>)
    requires AllSound(vbs)
    ensures Total(vbs) <= Expected(vbs)
    ensures Total(vbs) == Expected(vbs) <==> AllDone(vbs)
    ensures Expected(vbs) - Total(vbs) <= EndSum(vbs)
  {
    if vbs != [] {
      var n := |vbs| - 1;
      TotalBounds(vbs[..n]);
      assert AllDone(vbs) <==> AllDone(vbs[..n]) && !vbs[n].active;
    }
  }

  /** No vbucket stands before its start. */
  predicate NotBeforeStart(vbs: seq<VbProgress>) {
    forall i :: 0 <= i < |vbs| && vbs[i].active ==> vbs[i].current >= vbs[i].start
  }

  lemma {:induction false} TotalNotNegative(vbs: seq<VbProgress>)
    requires NotBeforeStart(vbs)
    ensures Total(vbs) >= 0
  {
    if vbs != [] {
      TotalNotNegative(vbs[..|vbs| - 1]);
    }
  }

  // ---- every run

  /** The books while the backfill is under way. */
  predicate Books(b: Backfill, vbs: seq<VbProgress>) {
    && AllSound(vbs) && b.expected == Expected(vbs) && EndSum(vbs) < TWO_64
    && b.received == Wrap64(Total(vbs))
    && (b.active <==> 0 <= Total(vbs) && !AllDone(vbs))
  }

  lemma ActiveIff(b: Backfill, vbs: seq<VbProgress>)
    requires AllSound(vbs) && b.expected == Expected(vbs) && EndSum(vbs) < TWO_64 && b.received == Wrap64(Total(vbs))
    requires b.active <==> b.received < b.expected
    ensures Books(b, vbs)
  {
    TotalBounds(vbs);
    ExpectedBound(vbs);
  }

  lemma {:induction false} ExpectedBound(vbs: seq<VbProgress>)
    ensures Expected(vbs) <= EndSum(vbs)
  {
    if vbs != [] {
      ExpectedBound(vbs[..|vbs| - 1]);
    }
  }

  /** Every update of a backfill under way, forward or rolled back, keeps the books: what is received is the total of
      all contributions, and the backfill ends exactly when every vbucket is done or the total falls below zero. */
  lemma UpdateKeepsBooks(b: Backfill, vbs: seq<VbProgress>, vb: nat, sequence: nat)
    requires vb < |vbs| && Books(b, vbs) && b.active
    ensures var (b', vbs') := Updated(b, vbs, vb, sequence); Books(b', vbs')
  {
    var p := vbs[vb];
    var p' := if p.active then Moved(p, sequence) else p.(current := sequence);
    var (b', vbs') := Updated(b, vbs, vb, sequence);
    assert vbs' == vbs[vb := p'];
    TotalMoves(vbs, vb, p');
    BoundsStay(vbs, vb, p');
    if p.active {
      WrapAdd(Total(vbs), Contribution(p') - Contribution(p));
      ActiveIff(b', vbs');
    } else {
      assert forall i :: 0 <= i < |vbs| ==> vbs'[i].active == vbs[i].active;
    }
  }

  datatype Update = Update(vb: nat, sequence: nat)

  /** The state after a run of updates. */
  function Run(b: Backfill, vbs: seq<VbProgress>, updates: seq<Update>): (Backfill, seq<VbProgress>)
    requires forall k :: 0 <= k < |updates| ==> updates[k].vb < |vbs|
    ensures |Run(b, vbs, updates).1| == |vbs|
  {
    if updates == [] then (b, vbs)
    else
      var n := |updates| - 1;
      var (b', vbs') := Run(b, vbs, updates[..n]);
      Updated(b', vbs', updates[n].vb, updates[n].sequence)
  }

  predicate Forward(vbs: seq<VbProgress>, u: Update) {
    u.vb < |vbs| && u.sequence >= vbs[u.vb].current
  }

  /** No update moves a vbucket back. */
  predicate AllForward(b: Backfill, vbs: seq<VbProgress>, updates: seq<Update>)
    requires forall k :: 0 <= k < |updates| ==> updates[k].vb < |vbs|
  {
    updates == [] ||
    var n := |updates| - 1;
    AllForward(b, vbs, updates[..n]) && Forward(Run(b, vbs, updates[..n]).1, updates[n])
  }

  function Least(a: nat, b: nat): nat {
    if a < b then a else b
  }

  /** Independently of any flag: how far each vbucket's part has come. */
  function Reached(vbs: seq<VbProgress>): int {
    if vbs == [] then 0
    else
      var p := vbs[|vbs| - 1];
      Reached(vbs[..|vbs| - 1]) + if InBackfill(p) then Least(p.current, p.end) - p.start else 0
  }

  /** The flag says what the position says. */
  predicate Exact(p: VbProgress) {
    p.start <= p.current && (p.active <==> InBackfill(p) && p.current < p.end)
  }

  predicate AllExact(vbs: seq<VbProgress>) {
    forall i :: 0 <= i < |vbs| ==> Exact(vbs[i])
  }

  lemma {:induction false} ReachedIsTotal(vbs: seq<VbProgress>)
    requires AllExact(vbs)
    ensures Reached(vbs) == Total(vbs) >= 0
  {
    if vbs != [] {
      ReachedIsTotal(vbs[..|vbs| - 1]);
    }
  }

  /** Once nothing is in backfill, moving forward changes no total. */
  lemma ForwardKeepsBooks(b: Backfill, vbs: seq<VbProgress>, u: Update)
    requires Books(b, vbs) && AllExact(vbs) && Forward(vbs, u)
    ensures var (b', vbs') := Updated(b, vbs, u.vb, u.sequence); Books(b', vbs') && AllExact(vbs')
  {
    var (b', vbs') := Updated(b, vbs, u.vb, u.sequence);
    if b.active {
      UpdateKeepsBooks(b, vbs, u.vb, u.sequence);
    } else {
      ReachedIsTotal(vbs);
      var p := vbs[u.vb];
      assert !p.active;
      TotalMoves(vbs, u.vb, p.(current := u.sequence));
      BoundsStay(vbs, u.vb, p.(current := u.sequence));
    }
  }

  /** Over every run of forward updates the number received is the sum, over the vbuckets that were in backfill, of
      min(position, end) - start, and the backfill is active exactly while one of them has not reached its end. */
  lemma {:induction false} BackfillIsExact(b: Backfill, vbs: seq<VbProgress>, updates: seq<Update>)
    requires forall k :: 0 <= k < |updates| ==> updates[k].vb < |vbs|
    requires Books(b, vbs) && AllExact(vbs) && AllForward(b, vbs, updates)
    ensures var (b', vbs') := Run(b, vbs, updates);
      && Books(b', vbs') && AllExact(vbs')
      && b'.received == Reached(vbs')
      && (b'.active <==> exists i :: 0 <= i < |vbs'| && InBackfill(vbs'[i]) && vbs'[i].current < vbs'[i].end)
  {
    var (b', vbs') := Run(b, vbs, updates);
    if updates != [] {
      var n := |updates| - 1;
      BackfillIsExact(b, vbs, updates[..n]);
      var (b0, vbs0) := Run(b, vbs, updates[..n]);
      ForwardKeepsBooks(b0, vbs0, updates[n]);
    }
    ReachedIsTotal(vbs');
    TotalBounds(vbs');
    ExpectedBound(vbs');
  }
}
