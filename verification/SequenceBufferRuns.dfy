/** What sequence buffering guarantees over whole runs, for any arrival order, any duplicates and any
    choice of when to stop waiting (db/change_cache.go:645-776, db/changes.go:422-430). */
module SequenceBufferRuns {
  import opened Options
  import opened LogEntries
  import opened SequenceBufferSpec
  import opened ChannelCacheSpec
  import opened ChannelStore

  /** The state after a run of events, starting fresh. */
  ghost function Run(initial: nat, events: seq<Event>, maxNum: nat): (b: Buffer)
    ensures Inv(b, maxNum)
  {
    if events == [] then FreshInv(initial, maxNum); Fresh(initial)
    else
      var b := Run(initial, events[..|events| - 1], maxNum);
      ApplyKeepsInv(b, events[|events| - 1], maxNum);
      Apply(b, events[|events| - 1], maxNum)
  }

  lemma FreshInv(initial: nat, maxNum: nat)
    ensures Inv(Fresh(initial), maxNum)
  {
  }

  /** Exactly one of three, which add up to all. */
  ghost predicate ExactlyOne(a: bool, b: bool, c: bool) {
    (a || b || c) && !(a && b) && !(a && c) && !(b && c)
  }

  /** Given up and not turned up since. */
  ghost function Abandoned(b: Buffer): set<nat> {
    b.givenUp - CachedSeqs(b.additions)
  }

  /** Conservation: in every reachable state each sequence from the initial one up to the next one is
      cached, skipped or abandoned, and exactly one of these; nothing else is any of them. */
  lemma Conservation(initial: nat, events: seq<Event>, maxNum: nat, s: nat)
    ensures var b := Run(initial, events, maxNum);
      if b.initial < s < b.next
      then ExactlyOne(s in CachedSeqs(b.additions), s in b.skipped, s in Abandoned(b))
      else s !in CachedSeqs(b.additions) && s !in b.skipped && s !in Abandoned(b)
  {
    var b := Run(initial, events, maxNum);
    assert Inv(b, maxNum);
  }

  /** Everything pending is above the next sequence, the queue is never left over its limit, in-order
      additions are strictly ascending and no sequence is cached twice. */
  lemma QueueAndOrder(initial: nat, events: seq<Event>, maxNum: nat)
    ensures var b := Run(initial, events, maxNum);
      && (forall c :: c in b.pending ==> b.next < c.seqNo)
      && |b.pending| <= maxNum
      && CachedOnce(b.additions)
  {
    var b := Run(initial, events, maxNum);
    assert Inv(b, maxNum);
  }

  /** The head of the skipped list is its minimum, and every sequence below it has been cached or abandoned:
      the stable low sequence sent to clients hides nothing. */
  lemma LowSequenceIsStable(initial: nat, events: seq<Event>, maxNum: nat, s: nat)
    requires Run(initial, events, maxNum).skipped != []
    ensures var b := Run(initial, events, maxNum);
      && (forall x :: x in b.skipped ==> b.skipped[0] <= x)
      && (b.initial < s < b.skipped[0] ==> s in CachedSeqs(b.additions) || s in Abandoned(b))
  {
    HeadIsLow(Run(initial, events, maxNum), s);
  }

  lemma HeadIsLow(b: Buffer, s: nat)
    requires Books(b) && b.skipped != []
    ensures b.skipped[0] in b.skipped && forall x :: x in b.skipped ==> b.skipped[0] <= x
    ensures b.initial < s < b.skipped[0] ==> s in CachedSeqs(b.additions) || s in Abandoned(b)
  {
    assert b.skipped[0] in b.skipped;
  }

  /** Without abandonment no sequence ever arrives unexpectedly out of order. */
  lemma {:induction false} NothingUnexpected(initial: nat, events: seq<Event>, maxNum: nat)
    requires forall e :: e in events ==> !e.Abandon?
    ensures var b := Run(initial, events, maxNum);
      b.givenUp == {} && forall a :: a in b.additions ==> !a.kind.Unexpected?
  {
    var b := Run(initial, events, maxNum);
    if events != [] {
      var n := |events| - 1;
      NothingUnexpected(initial, events[..n], maxNum);
      var before := Run(initial, events[..n], maxNum);
      assert events[n] in events;
      KeepsFrame(before, events[n], maxNum);
    }
    assert Inv(b, maxNum);
  }

  lemma {:induction false} DrainFrame(b: Buffer, maxNum: nat, waitedTooLong: nat -> bool, k: nat)
    requires Ahead(b)
    ensures var r := Drained(b, maxNum, waitedTooLong, k);
      && r.initial == b.initial && r.received == b.received && r.givenUp == b.givenUp
      && ChangesOf(r) == ChangesOf(b)
    decreases |b.pending|, if b.pending == {} then 0 else Least(b.pending).seqNo - b.next
  {
    if b.pending != {} {
      var head := Least(b.pending);
      if head.seqNo == b.next {
        PopFrame(b, head);
        DrainFrame(Popped(b, head), maxNum, waitedTooLong, k);
      } else if |b.pending| > maxNum || waitedTooLong(k) {
        DrainFrame(Skipped(b), maxNum, waitedTooLong, k + 1);
      }
    }
  }

  /** The changes a buffer has passed on or still holds. */
  ghost function ChangesOf(b: Buffer): set<Change> {
    AddedChanges(b.additions) + b.pending
  }

  ghost function AddedChanges(additions: seq<Addition>): set<Change> {
    set a | a in additions :: a.change
  }

  lemma AddedAppend(additions: seq<Addition>, a: Addition)
    ensures AddedChanges(additions + [a]) == AddedChanges(additions) + {a.change}
  {
    assert forall x :: x in additions + [a] <==> x in additions || x == a;
  }

  lemma PopFrame(b: Buffer, head: Change)
    requires head in b.pending
    ensures ChangesOf(Popped(b, head)) == ChangesOf(b)
  {
    AddedAppend(b.additions, Addition(head, InOrder));
  }

  /** What one event leaves alone, and what it adds. */
  lemma KeepsFrame(b: Buffer, event: Event, maxNum: nat)
    requires Ordered(b)
    ensures var r := Apply(b, event, maxNum);
      && r.initial == b.initial
      && (!event.Abandon? ==> r.givenUp == b.givenUp)
      && r.received == (if event.Arrive? then b.received + {event.change.seqNo} else b.received)
      && ChangesOf(r) == ChangesOf(b) +
           (if event.Arrive? && event.change.seqNo > b.initial && event.change.seqNo !in b.received
            then {event.change} else {})
  {
    match event
    case Arrive(change, waitedTooLong) => ProcessFrame(b, change, maxNum, waitedTooLong);
    case Tick(waitedTooLong) => DrainFrame(b, maxNum, waitedTooLong, 0);
    case Abandon(sequences) =>
  }

  ghost predicate Grown(b: Buffer, r: Buffer, s: nat, changes: set<Change>) {
    && r.initial == b.initial && r.givenUp == b.givenUp
    && r.received == b.received + {s}
    && ChangesOf(r) == ChangesOf(b) + changes
  }

  lemma ProcessFrame(b: Buffer, change: Change, maxNum: nat, waitedTooLong: nat -> bool)
    requires Ordered(b)
    ensures Grown(b, Processed(b, change, maxNum, waitedTooLong), change.seqNo,
                  if change.seqNo > b.initial && change.seqNo !in b.received then {change} else {})
  {
    var s := change.seqNo;
    if s in b.received {
      assert b.received + {s} == b.received;
    } else if s == b.next {
      NextFrame(b, change, maxNum, waitedTooLong);
    } else if s > b.next {
      AheadFrame(b, change, maxNum, waitedTooLong);
    } else if s > b.initial {
      CachedFrame(b.(received := b.received + {s}), change, if s in b.skipped then Late else Unexpected);
    }
  }

  lemma NextFrame(b: Buffer, change: Change, maxNum: nat, waitedTooLong: nat -> bool)
    requires Ordered(b) && change.seqNo == b.next && change.seqNo !in b.received
    ensures Grown(b, Processed(b, change, maxNum, waitedTooLong), change.seqNo, {change})
  {
    var b1 := b.(received := b.received + {change.seqNo});
    CachedFrame(b1, change, InOrder);
    DrainFrame(Cached(b1, change, InOrder), maxNum, waitedTooLong, 0);
  }

  lemma AheadFrame(b: Buffer, change: Change, maxNum: nat, waitedTooLong: nat -> bool)
    requires Ordered(b) && change.seqNo > b.next && change.seqNo !in b.received
    ensures Grown(b, Processed(b, change, maxNum, waitedTooLong), change.seqNo, {change})
  {
    var b1 := b.(received := b.received + {change.seqNo});
    PushFrame(b1, change);
    var b2 := b1.(pending := b.pending + {change});
    if |b2.pending| > maxNum {
      DrainFrame(b2, maxNum, waitedTooLong, 0);
    }
  }

  lemma CachedFrame(b: Buffer, change: Change, kind: Kind)
    ensures ChangesOf(Cached(b, change, kind)) == ChangesOf(b) + {change}
  {
    AddedAppend(b.additions, Addition(change, kind));
  }

  lemma PushFrame(b: Buffer, change: Change)
    ensures ChangesOf(b.(pending := b.pending + {change})) == ChangesOf(b) + {change}
  {
  }

  // ---- complete arrival

  ghost function Arrivals(events: seq<Event>): set<Change> {
    set e | e in events && e.Arrive? :: e.change
  }

  /** Every sequence from the initial one to n arrives, and nothing beyond. */
  ghost predicate CompleteTo(initial: nat, events: seq<Event>, n: nat) {
    && (forall s :: initial < s <= n ==> s in SeqNos(Arrivals(events)))
    && (forall s :: s in SeqNos(Arrivals(events)) ==> s <= n)
  }

  /** What a buffer has received, and all that it holds, is what arrived. */
  ghost predicate Tracks(b: Buffer, initial: nat, events: seq<Event>) {
    b.initial == initial && b.received == SeqNos(Arrivals(events)) && ChangesOf(b) <= Arrivals(events)
  }

  lemma {:induction false} ReceivedIsArrived(initial: nat, events: seq<Event>, maxNum: nat)
    ensures Tracks(Run(initial, events, maxNum), initial, events)
  {
    if events != [] {
      var n := |events| - 1;
      var b, e := Run(initial, events[..n], maxNum), events[n];
      assert events == events[..n] + [e];
      ReceivedIsArrived(initial, events[..n], maxNum);
      ReceivedStep(b, initial, events[..n], e, maxNum);
      assert Run(initial, events, maxNum) == Apply(b, e, maxNum);
    }
  }

  lemma ReceivedStep(b: Buffer, initial: nat, before: seq<Event>, e: Event, maxNum: nat)
    requires Ordered(b) && Tracks(b, initial, before)
    ensures Tracks(Apply(b, e, maxNum), initial, before + [e])
  {
    KeepsFrame(b, e, maxNum);
    ArrivalsAppend(before, e);
  }

  lemma ArrivalsAppend(events: seq<Event>, e: Event)
    ensures Arrivals(events + [e]) == Arrivals(events) + (if e.Arrive? then {e.change} else {})
    ensures SeqNos(Arrivals(events + [e])) == SeqNos(Arrivals(events)) + (if e.Arrive? then {e.change.seqNo} else {})
  {
    assert forall x :: x in events + [e] <==> x in events || x == e;
    assert e in events + [e];
    assert Arrivals(events + [e]) == Arrivals(events) + (if e.Arrive? then {e.change} else {});
  }

  /** Convergence: once every sequence up to n has arrived, in any order and however often, nothing is
      pending or skipped, the next sequence is n + 1, and each sequence was cached exactly once. */
  lemma CompleteArrival(initial: nat, events: seq<Event>, maxNum: nat, n: nat)
    requires initial <= n && CompleteTo(initial, events, n)
    ensures var b := Run(initial, events, maxNum);
      && b.pending == {} && b.skipped == [] && b.next == n + 1
      && (forall s :: s in CachedSeqs(b.additions) <==> initial < s <= n)
      && CachedOnce(b.additions)
  {
    var b := Run(initial, events, maxNum);
    assert Inv(b, maxNum);
    ReceivedIsArrived(initial, events, maxNum);
    AllReceived(b, n);
  }

  lemma AllReceived(b: Buffer, n: nat)
    requires Books(b) && Ordered(b) && b.initial <= n
    requires forall s :: b.initial < s ==> (s in b.received <==> s <= n)
    ensures b.next == n + 1 && b.pending == {} && b.skipped == []
    ensures forall s :: s in CachedSeqs(b.additions) <==> b.initial < s <= n
  {
    assert b.next !in SeqNos(b.pending);
    assert b.next !in CachedSeqs(b.additions);
    assert b.next !in b.received;
    assert forall c :: c in b.pending ==> c.seqNo in b.received;
    assert SeqNos(b.pending) == {};
    assert forall s :: s in b.skipped ==> s in b.received;
    if b.skipped != [] {
      HeadIsLow(b, b.next);
    }
  }

  // ---- channel logs

  /** The entry a change adds to a channel, if any. The star channel takes every document. */
  function Routed(change: Change, channel: string): Option<LogEntry> {
    if change.docID == "" then None
    else if channel == "*" then Some(LogEntry(change.seqNo, change.docID, change.revID, change.deleted, false))
    else if channel in change.channels
         && (change.channels[channel].None? || change.channels[channel].value == change.seqNo)
    then Some(LogEntry(change.seqNo, change.docID, change.revID, change.deleted, change.channels[channel].Some?))
    else None
  }

  /** What reaches one channel's cache, in order. */
  function ForChannel(additions: seq<Addition>, channel: string): seq<LogEntry> {
    if additions == [] then []
    else
      var n := |additions| - 1;
      var rest := ForChannel(additions[..n], channel);
      match Routed(additions[n].change, channel)
      case None => rest
      case Some(e) => rest + [e]
  }

  ghost predicate DistinctSeqs(entries: seq<LogEntry>) {
    forall i, j :: 0 <= i < j < |entries| ==> entries[i].seqNo != entries[j].seqNo
  }

  /** The channel cache after adding the entries one by one. */
  ghost function Replay(validFrom: nat, entries: seq<LogEntry>, maxLength: nat): (v: CacheView)
    requires DistinctSeqs(entries)
    ensures Agrees(v, Entries(entries), Entries(entries))
  {
    if entries == [] then CacheView([], validFrom)
    else
      var n := |entries| - 1;
      var v := Replay(validFrom, entries[..n], maxLength);
      ReplayStep(v, entries, maxLength);
      Added(v, entries[n], maxLength)
  }

  lemma ReplayStep(v: CacheView, entries: seq<LogEntry>, maxLength: nat)
    requires entries != [] && DistinctSeqs(entries)
    requires var before := Entries(entries[..|entries| - 1]); Agrees(v, before, before)
    ensures Fits(v.logs, entries[|entries| - 1])
    ensures Agrees(Added(v, entries[|entries| - 1], maxLength), Entries(entries), Entries(entries))
  {
    var n := |entries| - 1;
    var e := entries[n];
    var before := Entries(entries[..n]);
    assert entries == entries[..n] + [e];
    EntriesAppend(entries[..n], [e]);
    assert Entries(entries) == before + {e};
    WriteAgrees(v, before, before, e);
    AddAgrees(v, before + {e}, before, e, maxLength);
  }

  /** With room for every document nothing is ever pruned, however often documents are updated. */
  lemma {:induction false} ReplayUnpruned(validFrom: nat, entries: seq<LogEntry>, maxLength: nat)
    requires DistinctSeqs(entries) && |DocIDs(entries)| <= maxLength
    ensures Replay(validFrom, entries, maxLength).validFrom == validFrom
  {
    if entries != [] {
      var n := |entries| - 1;
      var before, e := entries[..n], entries[n];
      assert entries == before + [e];
      EntriesAppend(before, [e]);
      SubsetSize(DocIDs(before), DocIDs(entries));
      ReplayUnpruned(validFrom, before, maxLength);
      var v := Replay(validFrom, before, maxLength);
      ReplayStep(v, entries, maxLength);
      DocsWithin(v.logs, before);
      RoomForAll(v, e, DocIDs(entries), maxLength);
    }
  }

  lemma DocsWithin(logs: seq<LogEntry>, entries: seq<LogEntry>)
    requires Entries(logs) <= Entries(entries)
    ensures DocIDs(logs) <= DocIDs(entries)
  {
    forall e | e in logs
      ensures e.docID in DocIDs(entries)
    {
      assert e in Entries(logs);
      assert e in Entries(entries);
    }
  }

  lemma RoomForAll(v: CacheView, e: LogEntry, docs: set<string>, maxLength: nat)
    requires WellFormed(v) && Fits(v.logs, e)
    requires DocIDs(v.logs) <= docs && e.docID in docs && |docs| <= maxLength
    ensures Added(v, e, maxLength).validFrom == v.validFrom
  {
    DistinctIsOnePerDoc(v.logs);
    assert forall x :: x in Entries(v.logs) ==> x.docID in DocIDs(v.logs);
    UpsertedWithin(Entries(v.logs), e, docs);
  }

  lemma UpsertedWithin(entries: set<LogEntry>, e: LogEntry, docs: set<string>)
    requires DistinctDocs(entries) && (forall x :: x in entries ==> x.docID in docs) && e.docID in docs
    ensures |Upserted(entries, e)| <= |docs|
  {
    AtMostDocs(Upserted(entries, e), docs);
  }

  lemma {:induction false} AtMostDocs(entries: set<LogEntry>, docs: set<string>)
    requires DistinctDocs(entries) && forall e :: e in entries ==> e.docID in docs
    ensures |entries| <= |docs|
  {
    if entries != {} {
      var e :| e in entries;
      AtMostDocs(entries - {e}, docs - {e.docID});
    }
  }

  /** Whatever is pruned, and in whatever order the changes come, a channel's log is the newest entry of each document
      from its validFrom on. */
  lemma ReplayExact(validFrom: nat, entries: seq<LogEntry>, maxLength: nat)
    requires DistinctSeqs(entries)
    ensures var v := Replay(validFrom, entries, maxLength);
      && SeqKeyed(From(Newest(Entries(entries)), v.validFrom))
      && v.logs == Sorted(From(Newest(Entries(entries)), v.validFrom))
  {
    ExactWhenCaughtUp(Replay(validFrom, entries, maxLength), Entries(entries));
  }

  /** As long as nothing has to be pruned, a channel's log depends only on which changes were added. */
  lemma ReplayOrderIndependent(validFrom: nat, xs: seq<LogEntry>, ys: seq<LogEntry>, maxLength: nat)
    requires DistinctSeqs(xs) && DistinctSeqs(ys) && Entries(xs) == Entries(ys)
    requires |DocIDs(xs)| <= maxLength
    ensures Replay(validFrom, xs, maxLength) == Replay(validFrom, ys, maxLength)
  {
    assert DocIDs(xs) == DocIDs(ys) by {
      DocsWithin(xs, ys);
      DocsWithin(ys, xs);
    }
    ReplayUnpruned(validFrom, xs, maxLength);
    ReplayUnpruned(validFrom, ys, maxLength);
    SameLog(Replay(validFrom, xs, maxLength), Replay(validFrom, ys, maxLength), Entries(xs));
  }

  lemma SameLog(v: CacheView, v': CacheView, all: set<LogEntry>)
    requires Agrees(v, all, all) && Agrees(v', all, all) && v.validFrom == v'.validFrom
    ensures v == v'
  {
    ExactWhenCaughtUp(v, all);
    ExactWhenCaughtUp(v', all);
  }

  ghost function RoutedSet(changes: set<Change>, channel: string): set<LogEntry> {
    set c | c in changes && Routed(c, channel).Some? :: Routed(c, channel).value
  }

  lemma {:induction false} ForChannelEntries(additions: seq<Addition>, channel: string)
    ensures Entries(ForChannel(additions, channel)) == RoutedSet(AddedChanges(additions), channel)
  {
    if additions != [] {
      var n := |additions| - 1;
      var a := additions[n];
      ForChannelEntries(additions[..n], channel);
      assert additions == additions[..n] + [a];
      AddedAppend(additions[..n], a);
      RoutedOneMore(AddedChanges(additions[..n]), a.change, channel);
      if Routed(a.change, channel).Some? {
        EntriesAppend(ForChannel(additions[..n], channel), [Routed(a.change, channel).value]);
      }
    }
  }

  lemma RoutedOneMore(changes: set<Change>, c: Change, channel: string)
    ensures RoutedSet(changes + {c}, channel) ==
      RoutedSet(changes, channel) + (if Routed(c, channel).Some? then {Routed(c, channel).value} else {})
  {
  }

  lemma {:induction false} ForChannelDistinct(additions: seq<Addition>, channel: string)
    requires CachedOnce(additions)
    ensures DistinctSeqs(ForChannel(additions, channel))
    ensures forall e :: e in ForChannel(additions, channel) ==> e.seqNo in CachedSeqs(additions)
  {
    if additions != [] {
      var n := |additions| - 1;
      var a := additions[n];
      ForChannelDistinct(additions[..n], channel);
      assert additions == additions[..n] + [a];
      CachedSeqsAppend(additions[..n], a);
      NewSequence(additions, n);
      if Routed(a.change, channel).Some? {
        DistinctAppend(ForChannel(additions[..n], channel), Routed(a.change, channel).value);
      }
    }
  }

  lemma NewSequence(additions: seq<Addition>, n: nat)
    requires CachedOnce(additions) && n < |additions|
    ensures additions[n].change.seqNo !in CachedSeqs(additions[..n])
  {
  }

  lemma DistinctAppend(entries: seq<LogEntry>, e: LogEntry)
    requires DistinctSeqs(entries) && forall x :: x in entries ==> x.seqNo != e.seqNo
    ensures DistinctSeqs(entries + [e])
  {
  }

  /** One change per sequence number. */
  ghost predicate OneChangePerSeq(events: seq<Event>) {
    PendingKeyed(Arrivals(events))
  }

  /** The arrivals that are not from before the start. */
  ghost function NewArrivals(initial: nat, events: seq<Event>): set<Change> {
    set c | c in Arrivals(events) && initial < c.seqNo
  }

  lemma CompleteChanges(initial: nat, events: seq<Event>, maxNum: nat, n: nat)
    requires initial <= n && CompleteTo(initial, events, n) && OneChangePerSeq(events)
    ensures AddedChanges(Run(initial, events, maxNum).additions) == NewArrivals(initial, events)
  {
    var b := Run(initial, events, maxNum);
    CompleteArrival(initial, events, maxNum, n);
    ReceivedIsArrived(initial, events, maxNum);
    forall c
      ensures c in AddedChanges(b.additions) <==> c in Arrivals(events) && initial < c.seqNo
    {
      if c in AddedChanges(b.additions) {
        assert c in ChangesOf(b) && c.seqNo in CachedSeqs(b.additions);
      }
      if c in Arrivals(events) && initial < c.seqNo {
        assert c.seqNo in CachedSeqs(b.additions);
        var a :| a in b.additions && a.change.seqNo == c.seqNo;
        assert a.change in ChangesOf(b);
      }
    }
  }

  /** What a complete arrival hands to a channel: the routed changes, each once. */
  lemma CompleteForChannel(initial: nat, events: seq<Event>, maxNum: nat, n: nat, channel: string)
    requires initial <= n && CompleteTo(initial, events, n) && OneChangePerSeq(events)
    ensures var xs := ForChannel(Run(initial, events, maxNum).additions, channel);
      DistinctSeqs(xs) && Entries(xs) == RoutedSet(NewArrivals(initial, events), channel)
  {
    var additions := Run(initial, events, maxNum).additions;
    CompleteChanges(initial, events, maxNum, n);
    CompleteArrival(initial, events, maxNum, n);
    ForChannelEntries(additions, channel);
    ForChannelDistinct(additions, channel);
  }

  ghost function RoutedDocs(events: seq<Event>, channel: string): set<string> {
    set c | c in Arrivals(events) && Routed(c, channel).Some? :: c.docID
  }

  /** Two complete arrivals of the same changes, in whatever order, with whatever duplicates and skips, leave
      every channel that has room for its documents with the same log: in particular the one that in-order arrival
      leaves. */
  lemma ChannelLogsConverge(initial: nat, events: seq<Event>, inOrder: seq<Event>, maxNum: nat, n: nat,
                            channel: string, maxLength: nat)
    requires initial <= n && CompleteTo(initial, events, n) && CompleteTo(initial, inOrder, n)
    requires Arrivals(events) == Arrivals(inOrder) && OneChangePerSeq(events)
    requires |RoutedDocs(events, channel)| <= maxLength
    ensures var xs := ForChannel(Run(initial, events, maxNum).additions, channel);
            var ys := ForChannel(Run(initial, inOrder, maxNum).additions, channel);
      && DistinctSeqs(xs) && DistinctSeqs(ys)
      && Replay(initial + 1, xs, maxLength) == Replay(initial + 1, ys, maxLength)
  {
    CompleteForChannel(initial, events, maxNum, n, channel);
    CompleteForChannel(initial, inOrder, maxNum, n, channel);
    var xs := ForChannel(Run(initial, events, maxNum).additions, channel);
    var ys := ForChannel(Run(initial, inOrder, maxNum).additions, channel);
    RoutedDocsBound(xs, events, channel, NewArrivals(initial, events));
    ReplayOrderIndependent(initial + 1, xs, ys, maxLength);
  }

  lemma RoutedDocsBound(xs: seq<LogEntry>, events: seq<Event>, channel: string, changes: set<Change>)
    requires changes <= Arrivals(events) && Entries(xs) == RoutedSet(changes, channel)
    ensures |DocIDs(xs)| <= |RoutedDocs(events, channel)|
  {
    forall d | d in DocIDs(xs)
      ensures d in RoutedDocs(events, channel)
    {
      var e :| e in xs && e.docID == d;
      assert e in Entries(xs);
    }
    SubsetSize(DocIDs(xs), RoutedDocs(events, channel));
  }

  /** With or without room: the channel's log is the newest routed change of each document from its validFrom on. */
  lemma ChannelLogExact(initial: nat, events: seq<Event>, maxNum: nat, n: nat, channel: string, maxLength: nat)
    requires initial <= n && CompleteTo(initial, events, n) && OneChangePerSeq(events)
    ensures var xs := ForChannel(Run(initial, events, maxNum).additions, channel);
            var all := Newest(RoutedSet(NewArrivals(initial, events), channel));
      && DistinctSeqs(xs)
      && var v := Replay(initial + 1, xs, maxLength);
         SeqKeyed(From(all, v.validFrom)) && v.logs == Sorted(From(all, v.validFrom))
  {
    CompleteForChannel(initial, events, maxNum, n, channel);
    ReplayExact(initial + 1, ForChannel(Run(initial, events, maxNum).additions, channel), maxLength);
  }
}
