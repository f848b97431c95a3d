/** Sequence buffering (db/change_cache.go:645-776, 897-1011) on values: what each event does to the
    buffer, and what holds after every run of events. */
module SequenceBufferSpec {
  import opened Options
  import opened Numbers

  /** A mutation as the feed delivers it. `channels` maps each channel to the sequence of the document's
      removal from it, if it was removed. An empty docID stands for an unused sequence. */
  datatype Change = Change(seqNo: nat, docID: string, revID: string, deleted: bool, channels: map<string, Option<nat>>)

  datatype Kind = InOrder | Late | Unexpected

  /** One call of _addToCache, and which branch made it. */
  datatype Addition = Addition(change: Change, kind: Kind)

  /** The buffering state. `additions` and `givenUp` are history: what was passed on to the channel caches,
      and which skipped sequences were ever abandoned. */
  datatype Buffer = Buffer(
    initial: nat,
    next: nat,
    received: set<nat>,
    pending: set<Change>,
    skipped: seq<nat>,
    additions: seq<Addition>,
    givenUp: set<nat>)

  datatype Event =
    | Arrive(change: Change, waitedTooLong: nat -> bool)
    | Tick(waitedTooLong: nat -> bool)
    | Abandon(sequences: seq<nat>)

  function Fresh(initialSequence: nat): Buffer {
    Buffer(initialSequence, initialSequence + 1, {}, {}, [], [], {})
  }

  ghost predicate PendingKeyed(pending: set<Change>) {
    forall x, y :: x in pending && y in pending && x.seqNo == y.seqNo ==> x == y
  }

  lemma LeastExists(pending: set<Change>)
    requires pending != {}
    ensures exists m :: m in pending && forall x :: x in pending ==> m.seqNo <= x.seqNo
    decreases |pending|
  {
    var c :| c in pending;
    var rest := pending - {c};
    assert pending == rest + {c};
    if rest != {} {
      LeastExists(rest);
      var m :| m in rest && forall x :: x in rest ==> m.seqNo <= x.seqNo;
      var low := if m.seqNo <= c.seqNo then m else c;
      assert low in pending && forall x :: x in pending ==> low.seqNo <= x.seqNo;
    }
  }

  /** The head of the priority queue. */
  ghost function Least(pending: set<Change>): (m: Change)
    requires pending != {}
    ensures m in pending && forall x :: x in pending ==> m.seqNo <= x.seqNo
  {
    LeastExists(pending);
    var m :| m in pending && forall x :: x in pending ==> m.seqNo <= x.seqNo;
    m
  }

  function Cached(b: Buffer, change: Change, kind: Kind): Buffer {
    b.(next := if change.seqNo >= b.next then change.seqNo + 1 else b.next,
       additions := b.additions + [Addition(change, kind)])
  }

  /** Pushing onto the skipped list; a sequence not above the last one is rejected. */
  function Pushed(skipped: seq<nat>, x: nat): seq<nat> {
    if skipped == [] || skipped[|skipped| - 1] < x then skipped + [x] else skipped
  }

  function Without(skipped: seq<nat>, gone: set<nat>): seq<nat> {
    if skipped == [] then []
    else if skipped[0] in gone then Without(skipped[1..], gone)
    else [skipped[0]] + Without(skipped[1..], gone)
  }

  lemma {:induction false} WithoutMembers(skipped: seq<nat>, gone: set<nat>)
    ensures forall s :: s in Without(skipped, gone) <==> s in skipped && s !in gone
  {
    if skipped != [] {
      WithoutMembers(skipped[1..], gone);
      assert skipped == [skipped[0]] + skipped[1..];
    }
  }

  /** Everything pending is still to come. */
  ghost predicate Ahead(b: Buffer) {
    && PendingKeyed(b.pending)
    && forall c :: c in b.pending ==> b.next <= c.seqNo && c.seqNo in b.received
  }

  /** Between events the next sequence itself is never pending. */
  ghost predicate Ordered(b: Buffer) {
    b.initial < b.next && Ahead(b) && forall c :: c in b.pending ==> b.next != c.seqNo
  }

  /** The pending loop. The k-th time the head has to be waited for, waitedTooLong(k) says whether that has
      lasted too long. It ends because each round shortens the queue or the gap to its head. */
  ghost function Drained(b: Buffer, maxNum: nat, waitedTooLong: nat -> bool, k: nat): (r: Buffer)
    requires Ahead(b)
    decreases |b.pending|, if b.pending == {} then 0 else Least(b.pending).seqNo - b.next
  {
    if b.pending == {} then b
    else
      var head := Least(b.pending);
      if head.seqNo == b.next then Drained(Popped(b, head), maxNum, waitedTooLong, k)
      else if |b.pending| > maxNum || waitedTooLong(k) then Drained(Skipped(b), maxNum, waitedTooLong, k + 1)
      else b
  }

  function Popped(b: Buffer, head: Change): Buffer {
    Cached(b.(pending := b.pending - {head}), head, InOrder)
  }

  function Skipped(b: Buffer): Buffer {
    b.(skipped := Pushed(b.skipped, b.next), next := b.next + 1)
  }

  ghost function Processed(b: Buffer, change: Change, maxNum: nat, waitedTooLong: nat -> bool): Buffer
    requires Ordered(b)
  {
    var s := change.seqNo;
    if s in b.received then b
    else
      var b1 := b.(received := b.received + {s});
      if s == b.next || b.next == 0 then Drained(Cached(b1, change, InOrder), maxNum, waitedTooLong, 0)
      else if s > b.next then
        var b2 := b1.(pending := b.pending + {change});
        if |b2.pending| > maxNum then Drained(b2, maxNum, waitedTooLong, 0) else b2
      else if s > b.initial then TakenLate(b1, change)
      else b1
  }

  /** A sequence below the next one: cached first, then taken off the skipped list. */
  function TakenLate(b: Buffer, change: Change): Buffer {
    Cached(b, change, if change.seqNo in b.skipped then Late else Unexpected)
      .(skipped := Without(b.skipped, {change.seqNo}))
  }

  /** Skipped sequences that did not turn up in time are dropped from the list. */
  function GivenUp(b: Buffer, sequences: set<nat>): Buffer {
    b.(skipped := Without(b.skipped, sequences),
       givenUp := b.givenUp + (set s | s in b.skipped && s in sequences))
  }

  ghost function Apply(b: Buffer, event: Event, maxNum: nat): Buffer
    requires Ordered(b)
  {
    match event
    case Arrive(change, waitedTooLong) => Processed(b, change, maxNum, waitedTooLong)
    case Tick(waitedTooLong) => Drained(b, maxNum, waitedTooLong, 0)
    case Abandon(sequences) => GivenUp(b, SetOf(sequences))
  }

  // ---- the books

  function CachedSeqs(additions: seq<Addition>): set<nat> {
    set a | a in additions :: a.change.seqNo
  }

  function SeqNos(pending: set<Change>): set<nat> {
    set c | c in pending :: c.seqNo
  }

  /** Every sequence below the next one is accounted for. */
  ghost predicate Accounted(b: Buffer) {
    var cached := CachedSeqs(b.additions);
    && (forall s :: b.initial < s < b.next ==> s in cached || s in b.skipped || s in b.givenUp)
    && (forall s :: s in cached || s in b.skipped || s in b.givenUp ==> b.initial < s < b.next)
    && (forall s :: s in b.skipped ==> s !in cached && s !in b.givenUp)
  }

  /** What was received is exactly what was cached or is pending. */
  ghost predicate Tracked(b: Buffer) {
    forall s :: b.initial < s ==> (s in b.received <==> s in CachedSeqs(b.additions) || s in SeqNos(b.pending))
  }

  /** Each sequence is cached once, and the in-order ones in ascending order. */
  ghost predicate CachedOnce(additions: seq<Addition>) {
    && (forall i, j :: 0 <= i < j < |additions| ==> additions[i].change.seqNo != additions[j].change.seqNo)
    && (forall i, j :: 0 <= i < j < |additions| && additions[i].kind.InOrder? && additions[j].kind.InOrder? ==>
          additions[i].change.seqNo < additions[j].change.seqNo)
  }

  /** Only a sequence that was given up can still arrive unexpectedly. */
  ghost predicate Explained(b: Buffer) {
    forall a :: a in b.additions && a.kind.Unexpected? ==> a.change.seqNo in b.givenUp
  }

  /** Nothing is skipped beyond what has been received. */
  ghost predicate Reached(b: Buffer) {
    b.next == b.initial + 1 || exists r :: r in b.received && b.next <= r + 1
  }

  ghost predicate Books(b: Buffer) {
    && b.initial < b.next
    && Ahead(b) && Reached(b)
    && StrictlyAscending(b.skipped)
    && Accounted(b) && Tracked(b) && CachedOnce(b.additions) && Explained(b)
  }

  ghost predicate Inv(b: Buffer, maxNum: nat) {
    Books(b) && Ordered(b) && |b.pending| <= maxNum
  }

  // ---- single steps

  lemma CachedSeqsAppend(additions: seq<Addition>, a: Addition)
    ensures CachedSeqs(additions + [a]) == CachedSeqs(additions) + {a.change.seqNo}
  {
    assert forall x :: x in additions + [a] <==> x in additions || x == a;
  }

  lemma CachedOnceAppend(additions: seq<Addition>, a: Addition)
    requires CachedOnce(additions) && a.change.seqNo !in CachedSeqs(additions)
    requires a.kind.InOrder? ==> forall x :: x in CachedSeqs(additions) ==> x < a.change.seqNo
    ensures CachedOnce(additions + [a])
  {
    forall i | 0 <= i < |additions|
      ensures additions[i].change.seqNo != a.change.seqNo
      ensures a.kind.InOrder? ==> additions[i].change.seqNo < a.change.seqNo
    {
      assert additions[i] in additions;
      assert additions[i].change.seqNo in CachedSeqs(additions);
    }
  }

  lemma ExplainedAppend(b: Buffer, a: Addition)
    requires Explained(b) && (a.kind.Unexpected? ==> a.change.seqNo in b.givenUp)
    ensures Explained(b.(additions := b.additions + [a]))
  {
  }

  lemma PopKeepsBooks(b: Buffer)
    requires Books(b) && b.pending != {} && Least(b.pending).seqNo == b.next
    ensures Books(Popped(b, Least(b.pending)))
    ensures |Popped(b, Least(b.pending)).pending| < |b.pending|
  {
    var head := Least(b.pending);
    CachedOnceAppend(b.additions, Addition(head, InOrder));
    ExplainedAppend(b, Addition(head, InOrder));
    PopAccounted(b, head);
    PopTracked(b, head);
    assert head.seqNo in b.received;
  }

  lemma PopAccounted(b: Buffer, head: Change)
    requires Accounted(b) && head.seqNo == b.next && b.initial < b.next
    ensures Accounted(Popped(b, head))
  {
    CachedSeqsAppend(b.additions, Addition(head, InOrder));
  }

  lemma PopTracked(b: Buffer, head: Change)
    requires Tracked(b) && PendingKeyed(b.pending) && head in b.pending
    ensures Tracked(Popped(b, head))
  {
    CachedSeqsAppend(b.additions, Addition(head, InOrder));
    assert SeqNos(b.pending) == SeqNos(b.pending - {head}) + {head.seqNo};
  }

  /** The push onto the skipped list is never rejected: everything on it is below the next sequence. */
  lemma SkipKeepsBooks(b: Buffer)
    requires Books(b) && b.pending != {} && Least(b.pending).seqNo != b.next
    ensures Books(Skipped(b))
    ensures Skipped(b).skipped == b.skipped + [b.next]
  {
    if b.skipped != [] {
      assert b.skipped[|b.skipped| - 1] in b.skipped;
    }
    assert forall c :: c in b.pending ==> b.next < c.seqNo;
    assert Least(b.pending).seqNo in b.received;
  }

  /** The pending loop keeps the books, and leaves only what has to wait. */
  lemma {:induction false} DrainKeepsInv(b: Buffer, maxNum: nat, waitedTooLong: nat -> bool, k: nat)
    requires Books(b)
    ensures Inv(Drained(b, maxNum, waitedTooLong, k), maxNum)
    decreases |b.pending|, if b.pending == {} then 0 else Least(b.pending).seqNo - b.next
  {
    if b.pending != {} {
      var head := Least(b.pending);
      if head.seqNo == b.next {
        PopKeepsBooks(b);
        DrainKeepsInv(Popped(b, head), maxNum, waitedTooLong, k);
      } else if |b.pending| > maxNum || waitedTooLong(k) {
        SkipKeepsBooks(b);
        DrainKeepsInv(Skipped(b), maxNum, waitedTooLong, k + 1);
      }
    }
  }

  lemma ArriveNextBooks(b: Buffer, change: Change)
    requires Books(b) && Ordered(b) && change.seqNo == b.next && change.seqNo !in b.received
    ensures Books(Cached(b.(received := b.received + {change.seqNo}), change, InOrder))
  {
    var a := Addition(change, InOrder);
    CachedSeqsAppend(b.additions, a);
    CachedOnceAppend(b.additions, a);
    ExplainedAppend(b.(received := b.received + {change.seqNo}), a);
    assert change.seqNo in b.received + {change.seqNo};
  }

  lemma ReachedGrows(b: Buffer, s: nat)
    requires Reached(b)
    ensures Reached(b.(received := b.received + {s}))
  {
    if b.next != b.initial + 1 {
      var r :| r in b.received && b.next <= r + 1;
      assert r in b.received + {s};
    }
  }

  lemma ArriveAheadBooks(b: Buffer, change: Change)
    requires Books(b) && Ordered(b) && change.seqNo > b.next && change.seqNo !in b.received
    ensures Books(b.(received := b.received + {change.seqNo}, pending := b.pending + {change}))
    ensures Ordered(b.(received := b.received + {change.seqNo}, pending := b.pending + {change}))
  {
    assert SeqNos(b.pending + {change}) == SeqNos(b.pending) + {change.seqNo};
    ReachedGrows(b, change.seqNo);
  }

  lemma {:induction false} WithoutAscending(skipped: seq<nat>, gone: set<nat>)
    requires StrictlyAscending(skipped)
    ensures StrictlyAscending(Without(skipped, gone))
    ensures forall s :: s in Without(skipped, gone) <==> s in skipped && s !in gone
  {
    WithoutMembers(skipped, gone);
    if skipped != [] {
      WithoutAscending(skipped[1..], gone);
      var rest := Without(skipped[1..], gone);
      forall i | 0 <= i < |rest|
        ensures skipped[0] < rest[i]
      {
        assert rest[i] in skipped[1..];
      }
    }
  }

  /** A late sequence is off the list once it is cached, and it was on it unless it had been given up. */
  lemma ArriveLateBooks(b: Buffer, change: Change)
    requires Books(b) && Ordered(b) && b.initial < change.seqNo < b.next && change.seqNo !in b.received
    ensures Books(TakenLate(b.(received := b.received + {change.seqNo}), change))
    ensures Ordered(TakenLate(b.(received := b.received + {change.seqNo}), change))
  {
    var s := change.seqNo;
    var b1 := b.(received := b.received + {s});
    var a := Addition(change, if s in b.skipped then Late else Unexpected);
    assert s !in CachedSeqs(b.additions);
    CachedSeqsAppend(b.additions, a);
    CachedOnceAppend(b.additions, a);
    WithoutAscending(b.skipped, {s});
    ExplainedAppend(b1, a);
    ReachedGrows(b, s);
  }

  lemma AbandonBooks(b: Buffer, sequences: set<nat>)
    requires Books(b)
    ensures Books(GivenUp(b, sequences))
  {
    WithoutAscending(b.skipped, sequences);
  }

  lemma ApplyKeepsInv(b: Buffer, event: Event, maxNum: nat)
    requires Inv(b, maxNum)
    ensures Inv(Apply(b, event, maxNum), maxNum)
  {
    match event
    case Arrive(change, waitedTooLong) => ProcessKeepsInv(b, change, maxNum, waitedTooLong);
    case Tick(waitedTooLong) => DrainKeepsInv(b, maxNum, waitedTooLong, 0);
    case Abandon(sequences) => AbandonBooks(b, SetOf(sequences));
  }

  lemma ProcessKeepsInv(b: Buffer, change: Change, maxNum: nat, waitedTooLong: nat -> bool)
    requires Inv(b, maxNum)
    ensures Inv(Processed(b, change, maxNum, waitedTooLong), maxNum)
  {
    var s := change.seqNo;
    if s !in b.received {
      var b1 := b.(received := b.received + {s});
      if s == b.next {
        ArriveNextBooks(b, change);
        DrainKeepsInv(Cached(b1, change, InOrder), maxNum, waitedTooLong, 0);
      } else if s > b.next {
        ArriveAheadBooks(b, change);
        var b2 := b1.(pending := b.pending + {change});
        if |b2.pending| > maxNum {
          DrainKeepsInv(b2, maxNum, waitedTooLong, 0);
        }
      } else if s > b.initial {
        ArriveLateBooks(b, change);
      } else {
        ReachedGrows(b, s);
      }
    }
  }
}
