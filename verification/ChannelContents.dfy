/** What is in a channel's cache once every sequence has arrived, told from the changes that arrived
    (db/change_cache.go:645-776, 724-743; db/channel_cache.go:143-161). */
module ChannelContents {
  import opened Options
  import opened LogEntries
  import opened ChannelCacheSpec
  import opened SequenceBufferSpec
  import opened SequenceBufferRuns

  /** The cache of a channel at the end of a run. */
  ghost function CacheAfter(initial: nat, events: seq<Event>, maxNum: nat, channel: string, maxLength: nat): CacheView {
    var additions := Run(initial, events, maxNum).additions;
    ForChannelDistinct(additions, channel);
    Replay(initial + 1, ForChannel(additions, channel), maxLength)
  }

  // ---- what a change means for a channel

  /** The document is in the channel as of this change. */
  predicate IsIn(c: Change, channel: string) {
    c.docID != "" && (channel == "*" || (channel in c.channels && c.channels[channel] == None))
  }

  /** The document left the channel with this change. */
  predicate Leaves(c: Change, channel: string) {
    c.docID != "" && channel != "*" && channel in c.channels && c.channels[channel] == Some(c.seqNo)
  }

  predicate Concerns(c: Change, channel: string) {
    IsIn(c, channel) || Leaves(c, channel)
  }

  /** A change that arrived in the run, and none that concerns the channel has come for its document since. */
  ghost predicate IsLatest(c: Change, initial: nat, events: seq<Event>, channel: string) {
    && c in Arrivals(events) && initial < c.seqNo
    && forall d :: d in Arrivals(events) && Concerns(d, channel) && d.docID == c.docID ==> d.seqNo <= c.seqNo
  }

  ghost predicate HasComeIn(initial: nat, events: seq<Event>, n: nat) {
    initial <= n && CompleteTo(initial, events, n) && OneChangePerSeq(events)
  }

  // ---- what the cache holds

  /** A document whose latest change is in the channel has an entry: its sequence, revision and deleted flag, and no
      removal. */
  lemma InIsCached(initial: nat, events: seq<Event>, maxNum: nat, n: nat, channel: string, maxLength: nat, c: Change)
    requires HasComeIn(initial, events, n) && IsLatest(c, initial, events, channel) && IsIn(c, channel)
    ensures var v := CacheAfter(initial, events, maxNum, channel, maxLength);
      v.validFrom <= c.seqNo ==> LogEntry(c.seqNo, c.docID, c.revID, c.deleted, false) in v.logs
  {
    LatestIsCached(initial, events, maxNum, n, channel, maxLength, c,
                   LogEntry(c.seqNo, c.docID, c.revID, c.deleted, false));
  }

  /** One that left the channel with its latest change has an entry that is marked as a removal. */
  lemma LeavingIsCached(initial: nat, events: seq<Event>, maxNum: nat, n: nat, channel: string, maxLength: nat,
                        c: Change)
    requires HasComeIn(initial, events, n) && IsLatest(c, initial, events, channel) && Leaves(c, channel)
    ensures var v := CacheAfter(initial, events, maxNum, channel, maxLength);
      v.validFrom <= c.seqNo ==> LogEntry(c.seqNo, c.docID, c.revID, c.deleted, true) in v.logs
  {
    LatestIsCached(initial, events, maxNum, n, channel, maxLength, c,
                   LogEntry(c.seqNo, c.docID, c.revID, c.deleted, true));
  }

  /** Nothing else is there: each entry is that of a latest change, and is marked as a removal exactly if the document
      left with it. */
  lemma CachedIsLatest(initial: nat, events: seq<Event>, maxNum: nat, n: nat, channel: string, maxLength: nat,
                       e: LogEntry) returns (c: Change)
    requires HasComeIn(initial, events, n) && e in CacheAfter(initial, events, maxNum, channel, maxLength).logs
    ensures IsLatest(c, initial, events, channel) && Concerns(c, channel)
    ensures e.seqNo == c.seqNo && e.docID == c.docID && e.revID == c.revID && e.deleted == c.deleted
    ensures e.removed <==> Leaves(c, channel)
    ensures CacheAfter(initial, events, maxNum, channel, maxLength).validFrom <= e.seqNo
  {
    var v := CacheAfter(initial, events, maxNum, channel, maxLength);
    var all := RoutedSet(NewArrivals(initial, events), channel);
    CacheIs(initial, events, maxNum, n, channel, maxLength);
    assert e in Entries(v.logs);
    assert IsNewest(e, all);
    c :| c in NewArrivals(initial, events) && Routed(c, channel) == Some(e);
    RoutedMeans(c, channel);
    forall d | d in Arrivals(events) && Concerns(d, channel) && d.docID == c.docID
      ensures d.seqNo <= c.seqNo
    {
      RoutedMeans(d, channel);
      if initial < d.seqNo {
        assert Routed(d, channel).value in all;
      }
    }
  }

  /** A later change of a document that left earlier adds nothing. */
  lemma LeftEarlierAddsNothing(initial: nat, events: seq<Event>, maxNum: nat, n: nat, channel: string, maxLength: nat,
                               c: Change)
    requires HasComeIn(initial, events, n) && c in Arrivals(events) && !Concerns(c, channel)
    ensures forall e :: e in CacheAfter(initial, events, maxNum, channel, maxLength).logs ==> e.seqNo != c.seqNo
  {
    forall e | e in CacheAfter(initial, events, maxNum, channel, maxLength).logs
      ensures e.seqNo != c.seqNo
    {
      var d := CachedIsLatest(initial, events, maxNum, n, channel, maxLength, e);
    }
  }

  /** The star channel has every document's latest change, and no unused sequence. */
  lemma StarHasAll(initial: nat, events: seq<Event>, maxNum: nat, n: nat, maxLength: nat, c: Change)
    requires HasComeIn(initial, events, n) && c in Arrivals(events) && initial < c.seqNo && c.docID != ""
    requires forall d :: d in Arrivals(events) && d.docID == c.docID ==> d.seqNo <= c.seqNo
    ensures var v := CacheAfter(initial, events, maxNum, "*", maxLength);
      && (v.validFrom <= c.seqNo ==> LogEntry(c.seqNo, c.docID, c.revID, c.deleted, false) in v.logs)
      && forall e :: e in v.logs ==> e.docID != "" && !e.removed
  {
    InIsCached(initial, events, maxNum, n, "*", maxLength, c);
    forall e | e in CacheAfter(initial, events, maxNum, "*", maxLength).logs
      ensures e.docID != "" && !e.removed
    {
      var d := CachedIsLatest(initial, events, maxNum, n, "*", maxLength, e);
    }
  }

  ghost function DocsOf(events: seq<Event>, channel: string): set<string> {
    set c | c in Arrivals(events) && Concerns(c, channel) :: c.docID
  }

  /** With room for its documents the cache answers for every sequence after the initial one. */
  lemma RoomMeansAll(initial: nat, events: seq<Event>, maxNum: nat, n: nat, channel: string, maxLength: nat)
    requires HasComeIn(initial, events, n) && |DocsOf(events, channel)| <= maxLength
    ensures CacheAfter(initial, events, maxNum, channel, maxLength).validFrom == initial + 1
  {
    var xs := ForChannel(Run(initial, events, maxNum).additions, channel);
    CompleteForChannel(initial, events, maxNum, n, channel);
    forall d | d in DocIDs(xs)
      ensures d in DocsOf(events, channel)
    {
      var e :| e in xs && e.docID == d;
      assert e in Entries(xs);
      var c :| c in NewArrivals(initial, events) && Routed(c, channel) == Some(e);
      RoutedMeans(c, channel);
    }
    SubsetSize(DocIDs(xs), DocsOf(events, channel));
    ReplayUnpruned(initial + 1, xs, maxLength);
  }

  /** Changes reach a channel in the order in which they were passed on, and its cache one at a time. */
  lemma NextComesLast(additions: seq<Addition>, a: Addition, channel: string)
    ensures ForChannel(additions + [a], channel) == ForChannel(additions, channel) +
      (if Concerns(a.change, channel)
       then [LogEntry(a.change.seqNo, a.change.docID, a.change.revID, a.change.deleted, Leaves(a.change, channel))]
       else [])
  {
    assert (additions + [a])[..|additions|] == additions;
    RoutedMeans(a.change, channel);
  }

  lemma NextIsAdded(validFrom: nat, entries: seq<LogEntry>, e: LogEntry, maxLength: nat)
    requires DistinctSeqs(entries + [e])
    ensures DistinctSeqs(entries) && WellFormed(Replay(validFrom, entries, maxLength))
    ensures Fits(Replay(validFrom, entries, maxLength).logs, e)
    ensures Replay(validFrom, entries + [e], maxLength) == Added(Replay(validFrom, entries, maxLength), e, maxLength)
  {
    assert (entries + [e])[..|entries|] == entries;
    assert forall i :: 0 <= i < |entries| ==> (entries + [e])[i] == entries[i];
    ReplayStep(Replay(validFrom, entries, maxLength), entries + [e], maxLength);
  }

  // ---- supporting facts

  lemma RoutedMeans(c: Change, channel: string)
    ensures Routed(c, channel).Some? <==> Concerns(c, channel)
    ensures Routed(c, channel).Some? ==>
      Routed(c, channel).value == LogEntry(c.seqNo, c.docID, c.revID, c.deleted, Leaves(c, channel))
  {
  }

  lemma CacheIs(initial: nat, events: seq<Event>, maxNum: nat, n: nat, channel: string, maxLength: nat)
    requires HasComeIn(initial, events, n)
    ensures var v := CacheAfter(initial, events, maxNum, channel, maxLength);
      Entries(v.logs) == From(Newest(RoutedSet(NewArrivals(initial, events), channel)), v.validFrom)
  {
    ChannelLogExact(initial, events, maxNum, n, channel, maxLength);
  }

  lemma LatestIsCached(initial: nat, events: seq<Event>, maxNum: nat, n: nat, channel: string, maxLength: nat,
                       c: Change, e: LogEntry)
    requires HasComeIn(initial, events, n) && IsLatest(c, initial, events, channel) && Concerns(c, channel)
    requires e == LogEntry(c.seqNo, c.docID, c.revID, c.deleted, Leaves(c, channel))
    ensures var v := CacheAfter(initial, events, maxNum, channel, maxLength);
      v.validFrom <= c.seqNo ==> e in v.logs
  {
    var all := RoutedSet(NewArrivals(initial, events), channel);
    RoutedMeans(c, channel);
    assert c in NewArrivals(initial, events) && e in all;
    forall x | x in all && x.docID == e.docID
      ensures x.seqNo <= e.seqNo
    {
      var d :| d in NewArrivals(initial, events) && Routed(d, channel) == Some(x);
      RoutedMeans(d, channel);
    }
    assert IsNewest(e, all);
    CacheIs(initial, events, maxNum, n, channel, maxLength);
    assert CacheAfter(initial, events, maxNum, channel, maxLength).validFrom <= c.seqNo ==>
      e in Entries(CacheAfter(initial, events, maxNum, channel, maxLength).logs);
  }
}
