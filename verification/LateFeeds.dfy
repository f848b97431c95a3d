/** The feed of late sequences in an iteration of the changes feed (db/changes.go:799-836), from what was listed when
    they arrived (db/change_cache.go:720-745). */
module LateFeeds {
  import opened Options
  import opened Numbers
  import opened LogEntries
  import opened SequenceIds
  import opened ChangesMerge
  import opened ChangesFeedExact
  import opened SequenceBufferSpec
  import opened SequenceBufferRuns
  import opened LateSequencesSpec
  import opened LateSequences
  import LateSequenceRuns

  // ---- a polled batch is a feed

  ghost predicate DifferentSequences(s: seq<LogEntry>) {
    forall i, j :: 0 <= i < j < |s| ==> s[i].seqNo != s[j].seqNo
  }

  /** Sorting entries whose sequences differ gives a strictly ascending log. */
  lemma SortedAscends(r: seq<LogEntry>, s: seq<LogEntry>)
    requires IsSortOf(r, s) && DifferentSequences(s)
    ensures Ascending(r)
  {
    forall i, j | 0 <= i < j < |r|
      ensures r[i].seqNo < r[j].seqNo
    {
      assert r[i].seqNo <= r[j].seqNo;
      DifferInSort(r, s, i, j);
    }
  }

  lemma DifferInSort(r: seq<LogEntry>, s: seq<LogEntry>, i: nat, j: nat)
    requires multiset(r) == multiset(s) && DifferentSequences(s) && i < j < |r|
    ensures r[i].seqNo != r[j].seqNo
  {
    Twice(r, i, j);
    assert r[i] in multiset(s) && r[j] in multiset(s);
    var m :| 0 <= m < |s| && s[m] == r[i];
    var n :| 0 <= n < |s| && s[n] == r[j];
    Once(s, m);
  }

  lemma Twice(r: seq<LogEntry>, i: nat, j: nat)
    requires i < j < |r|
    ensures r[i] in multiset(r) && r[j] in multiset(r)
    ensures r[i] == r[j] ==> multiset(r)[r[i]] >= 2
  {
    assert r == r[..j] + [r[j]] + r[j + 1..];
    assert r[..j][i] == r[i];
    assert r[i] in multiset(r[..j]);
  }

  lemma Once(s: seq<LogEntry>, m: nat)
    requires DifferentSequences(s) && m < |s|
    ensures multiset(s)[s[m]] == 1
  {
    assert s == s[..m] + [s[m]] + s[m + 1..];
    assert s[m] !in s[..m] && s[m] !in s[m + 1..];
    assert s[m] !in multiset(s[..m]) && s[m] !in multiset(s[m + 1..]);
  }

  /** What a registered feed polls, sorted, is a feed for the merge: strictly ascending, since no sequence arrives late
      twice. */
  lemma PolledFeedIsReady(w: LateSequenceRuns.World, c: nat, feed: seq<LogEntry>, channel: string, stable: nat)
    requires LateSequenceRuns.Inv(w) && c in w.clients && forall e :: e in w.arrivals ==> e.seqNo < MAX_UINT64
    requires Poll(w.log, w.clients[c].lastSequence).Polled?
    requires IsSortOf(feed, Poll(w.log, w.clients[c].lastSequence).entries)
    ensures Feedable(Ready(ChannelFeed(feed, 0, channel)), stable)
  {
    var entries := Poll(w.log, w.clients[c].lastSequence).entries;
    LateSequenceRuns.PollExact(w, c);
    BatchDiffers(w.arrivals, w.clients[c].position + 1);
    SortedAscends(feed, entries);
    forall e | e in feed
      ensures e.seqNo < MAX_UINT64
    {
      assert e in multiset(feed);
      assert e in multiset(entries);
      assert e in entries;
    }
    LateFeedIsReady(feed, channel, stable);
  }

  lemma BatchDiffers(arrivals: seq<LogEntry>, from: nat)
    requires LateSequenceRuns.Distinct(arrivals) && from <= |arrivals|
    ensures DifferentSequences(arrivals[from..])
  {
    forall i, j | 0 <= i < j < |arrivals| - from
      ensures arrivals[from..][i].seqNo != arrivals[from..][j].seqNo
    {
      assert LateSequenceRuns.DifferAt(arrivals, from + i, from + j);
    }
  }

  // ---- removals that arrive late

  /** What is listed as late for a channel: the change itself, not the copy of it that the channel cache marks as a
      removal. */
  function ListedLate(change: Change, channel: string): Option<LogEntry> {
    match Routed(change, channel)
    case None => None
    case Some(e) => Some(e.(removed := false))
  }

  /** A late change reaches a continuous feed as the channel cache has it exactly if it does not remove the document
      from that channel. */
  lemma ListedAsCachedIff(change: Change, channel: string)
    requires Routed(change, channel).Some?
    ensures ListedLate(change, channel) == Routed(change, channel)
      <==> channel == "*" || change.channels[channel].None?
  {
  }

  /** On the ID that they share, the channel's own feed marks a removal and the late feed does not. */
  lemma LateRemovalIsUnmarked(change: Change, channel: string)
    requires channel != "*" && Routed(change, channel).Some? && change.channels[channel].Some?
    ensures var cached := MakeChangeEntry(Routed(change, channel).value, 0, channel);
            var late := MakeChangeEntry(ListedLate(change, channel).value, 0, channel);
      && cached.id == late.id
      && cached.removed == Some({channel}) && late.removed == None
  {
  }

  /** Whatever feeds an iteration merges: once a late feed carries the change, it does not count as removed from all the
      user's channels, even if it was. */
  lemma NeverAllRemoved(feeds: seq<seq<ChangeEntry>>, e: ChangeEntry, i: nat, late: LogEntry, channel: string)
    requires AscendingFeeds(feeds) && e in Merged(feeds) && i < |feeds|
    requires !late.removed && EntryOf(feeds[i], e.id) == Some(MakeChangeEntry(late, 0, channel))
    ensures !e.allRemoved
  {
    MergedRepresents(feeds, e);
    assert !Reports(feeds[i], e.id);
  }

  /** A document that leaves channel c at the skipped sequence 7, on a continuous feed on c for active changes only: it
      is sent, and not as removed. */
  lemma RemovalMissed()
    ensures var change := Change(7, "d", "2-d", false, map["c" := Some(7)]);
      && Routed(change, "c") == Some(LogEntry(7, "d", "2-d", false, true))
      && ListedLate(change, "c") == Some(LogEntry(7, "d", "2-d", false, false))
      && Sent(Merged([ChannelFeed([ListedLate(change, "c").value], 0, "c")]), 9, true) ==
         [ChangeEntry(SequenceID(7, 0, 0), "d", false, None, false)]
  {
    var change := Change(7, "d", "2-d", false, map["c" := Some(7)]);
    var e := ChangeEntry(SequenceID(7, 0, 0), "d", false, None, false);
    assert Routed(change, "c") == Some(LogEntry(7, "d", "2-d", false, true)) by {
      assert "c"[0] != "*"[0] && |"d"| == 1;
    }
    assert ChannelFeed([ListedLate(change, "c").value], 0, "c") == [e];
    OneEntry(e);
  }

  lemma OneEntry(e: ChangeEntry)
    requires e == ChangeEntry(SequenceID(7, 0, 0), "d", false, None, false)
    ensures Sent(Merged([[e]]), 9, true) == [e]
  {
    var feeds := [[e]];
    assert LeastFeed(feeds, 0) == None;
    assert LeastFeed(feeds, 1) == Some(0);
    assert Passed(feeds, e.id) == [[]];
    assert LeastFeed([[]], 1) == None;
    assert RemovedUpTo(feeds, e.id, 0) == None;
    assert Combined(feeds, 0) == e;
    assert Merged(feeds) == [e];
    assert [e][1..] == [];
  }
}
