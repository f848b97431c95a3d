/** What one iteration of the changes feed sends, end to end: from the channel logs through the per-channel
    feeds (db/changes.go:172-235) and the merge to the output. */
module ChangesFeedExact {
  import opened Options
  import opened Numbers
  import opened LogEntries
  import opened SequenceIds
  import opened ChangesMerge
  import opened ChannelCacheSpec
  import opened ChannelStore
  import opened ChannelAnswer

  /** Without the active-only option the output is strictly ascending, and it holds an ID exactly if some feed
      carries it and it is stable. */
  lemma SentIsExact(feeds: seq<seq<ChangeEntry>>, stable: nat, x: SequenceID)
    requires AscendingFeeds(feeds)
    ensures var all := Sent(Merged(feeds), stable, false);
      && AscendingIDs(all)
      && (HasID(all, x) <==> Carried(feeds, x) && x.seqNo <= stable)
  {
    MergedAscending(feeds);
    MergedIDs(feeds, x);
    SentAscending(Merged(feeds), stable, false);
    var all := Sent(Merged(feeds), stable, false);
    if Carried(feeds, x) && x.seqNo <= stable {
      var e :| e in Merged(feeds) && e.id == x;
      assert e in all;
    }
  }

  lemma {:induction false} SentAscending(all: seq<ChangeEntry>, stable: nat, activeOnly: bool)
    requires AscendingIDs(all)
    ensures AscendingIDs(Sent(all, stable, activeOnly))
  {
    if all != [] {
      SentAscending(all[1..], stable, activeOnly);
      forall e | e in Sent(all[1..], stable, activeOnly)
        ensures all[0].id.Before(e.id)
      {
        assert e in all[1..];
      }
    }
  }

  /** With the option just those are sent that are neither deleted nor removed from all the user's channels. */
  lemma ActiveSentIsExact(feeds: seq<seq<ChangeEntry>>, stable: nat, e: ChangeEntry)
    requires AscendingFeeds(feeds)
    ensures AscendingIDs(Sent(Merged(feeds), stable, true))
    ensures e in Sent(Merged(feeds), stable, true) <==>
      e in Merged(feeds) && e.id.seqNo <= stable && !e.deleted && !e.allRemoved
  {
    MergedAscending(feeds);
    SentAscending(Merged(feeds), stable, true);
  }

  /** Every entry sent, with or without the option, stands for what all feeds say about its ID. */
  lemma SentRepresents(feeds: seq<seq<ChangeEntry>>, stable: nat, activeOnly: bool, limit: nat, e: ChangeEntry)
    requires AscendingFeeds(feeds) && e in Limited(Sent(Merged(feeds), stable, activeOnly), limit)
    ensures Represents(e, feeds)
  {
    assert e in Sent(Merged(feeds), stable, activeOnly);
    MergedRepresents(feeds, e);
  }

  /** The resume point is the later of where it was and the last ID sent. */
  lemma {:induction false} AdvancedIsLatest(since: SequenceID, sent: seq<ChangeEntry>)
    requires AscendingIDs(sent) && forall i :: 0 <= i < |sent| ==> sent[i].id.lowSeq == 0
    ensures Advanced(since, sent) ==
      if sent == [] || !since.Before(sent[|sent| - 1].id) then since else sent[|sent| - 1].id
  {
    if |sent| > 1 {
      var n := |sent| - 1;
      AdvancedIsLatest(since, sent[..n]);
      // low sequences only tell where to start
      var from := SequenceID(since.SafeSequence(), since.triggeredBy, 0);
      BeforeIsStrictTotalOrder(from, sent[n - 1].id, sent[n].id);
    }
  }

  // ---- channel feeds

  function MakeChangeEntry(e: LogEntry, triggeredBy: nat, channel: string): ChangeEntry {
    var removed := if e.removed then Some({channel}) else None;
    ChangeEntry(SequenceID(e.seqNo, triggeredBy, 0), e.docID, e.deleted, removed, false)
  }

  /** A channel log as a feed. A backfill triggered by a grant ends at the sequence of the grant. */
  function ChannelFeed(log: seq<LogEntry>, triggeredBy: nat, channel: string): (feed: seq<ChangeEntry>)
    ensures |feed| == |log|
    ensures forall i :: 0 <= i < |log| ==>
      feed[i] == MakeChangeEntry(log[i], if log[i].seqNo >= triggeredBy then 0 else triggeredBy, channel)
  {
    seq(|log|, i requires 0 <= i < |log| =>
      MakeChangeEntry(log[i], if log[i].seqNo >= triggeredBy then 0 else triggeredBy, channel))
  }

  /** The writer of a channel feed, which clears the trigger once it reaches the grant. */
  method WriteChannelFeed(log: seq<LogEntry>, triggeredBy: nat, channel: string) returns (feed: seq<ChangeEntry>)
    requires Ascending(log)
    ensures feed == ChannelFeed(log, triggeredBy, channel)
    ensures |feed| == |log| && forall i :: 0 <= i < |log| ==>
      && feed[i].docID == log[i].docID && feed[i].deleted == log[i].deleted && !feed[i].allRemoved
      && feed[i].removed == (if log[i].removed then Some({channel}) else None)
      && feed[i].id == SequenceID(log[i].seqNo, if log[i].seqNo < triggeredBy then triggeredBy else 0, 0)
  {
    feed := [];
    var trigger := triggeredBy;
    var i := 0;
    while i < |log|
      invariant 0 <= i <= |log| && feed == ChannelFeed(log[..i], triggeredBy, channel)
      invariant trigger == if i > 0 && log[i - 1].seqNo >= triggeredBy then 0 else triggeredBy
    {
      if log[i].seqNo >= trigger {
        trigger := 0;
      }
      feed := feed + [MakeChangeEntry(log[i], trigger, channel)];
      i := i + 1;
    }
    assert log[..|log|] == log;
  }

  /** A channel's feed is strictly ascending, across the end of a backfill too. */
  lemma ChannelFeedAscending(log: seq<LogEntry>, triggeredBy: nat, channel: string)
    requires Ascending(log) && triggeredBy <= MAX_UINT64 && forall e :: e in log ==> e.seqNo < MAX_UINT64
    ensures AscendingFeed(ChannelFeed(log, triggeredBy, channel))
  {
    var feed := ChannelFeed(log, triggeredBy, channel);
    forall i | 0 <= i < |feed|
      ensures Plain(feed[i].id)
    {
      assert log[i] in log;
    }
  }

  // ---- a limit may be applied to each channel before merging

  /** Each cut feed is a prefix of the whole one: all of it, or at least n entries. */
  ghost predicate Cut(cut: seq<seq<ChangeEntry>>, whole: seq<seq<ChangeEntry>>, n: nat) {
    && |cut| == |whole|
    && forall i :: 0 <= i < |whole| ==> CutFeed(cut[i], whole[i], n)
  }

  ghost predicate CutFeed(cut: seq<ChangeEntry>, whole: seq<ChangeEntry>, n: nat) {
    cut <= whole && (cut == whole || n <= |cut|)
  }

  ghost predicate SameHeads(a: seq<seq<ChangeEntry>>, b: seq<seq<ChangeEntry>>) {
    |a| == |b| && forall i :: 0 <= i < |a| ==> (a[i] == [] <==> b[i] == []) && (a[i] != [] ==> a[i][0] == b[i][0])
  }

  lemma {:induction false} SameLeast(a: seq<seq<ChangeEntry>>, b: seq<seq<ChangeEntry>>, k: nat)
    requires SameHeads(a, b) && k <= |a|
    ensures LeastFeed(a, k) == LeastFeed(b, k)
  {
    if k > 0 {
      SameLeast(a, b, k - 1);
    }
  }

  lemma {:induction false} SameRemovals(a: seq<seq<ChangeEntry>>, b: seq<seq<ChangeEntry>>, id: SequenceID, k: nat)
    requires SameHeads(a, b) && k <= |a|
    ensures RemovedUpTo(a, id, k) == RemovedUpTo(b, id, k)
    ensures AllRemovedUpTo(a, id, k) == AllRemovedUpTo(b, id, k)
  {
    if k > 0 {
      SameRemovals(a, b, id, k - 1);
    }
  }

  function FirstN<T>(s: seq<T>, n: nat): seq<T> {
    if |s| <= n then s else s[..n]
  }

  lemma CutPassed(cut: seq<seq<ChangeEntry>>, whole: seq<seq<ChangeEntry>>, n: nat, id: SequenceID)
    requires 0 < n && Cut(cut, whole, n)
    ensures SameHeads(cut, whole) && Cut(Passed(cut, id), Passed(whole, id), n - 1)
  {
    forall i | 0 <= i < |whole|
      ensures (cut[i] == [] <==> whole[i] == []) && (cut[i] != [] ==> cut[i][0] == whole[i][0])
      ensures CutFeed(Passed(cut, id)[i], Passed(whole, id)[i], n - 1)
    {
      assert CutFeed(cut[i], whole[i], n);
    }
  }

  lemma CutStep(cut: seq<seq<ChangeEntry>>, whole: seq<seq<ChangeEntry>>, n: nat)
    requires 0 < n && Cut(cut, whole, n)
    ensures var l := LeastFeed(whole, |whole|);
      && LeastFeed(cut, |cut|) == l
      && (l.Some? ==>
            var id := whole[l.value][0].id;
            && cut[l.value][0].id == id && Combined(cut, l.value) == Combined(whole, l.value)
            && Cut(Passed(cut, id), Passed(whole, id), n - 1))
  {
    CutPassed(cut, whole, n, MAX_SEQUENCE_ID);
    SameLeast(cut, whole, |whole|);
    var l := LeastFeed(whole, |whole|);
    if l.Some? {
      var id := whole[l.value][0].id;
      CutPassed(cut, whole, n, id);
      SameRemovals(cut, whole, id, |whole|);
    }
  }

  /** The first n merged entries need only the first n entries of each feed. */
  lemma {:induction false} CutMergeAgrees(cut: seq<seq<ChangeEntry>>, whole: seq<seq<ChangeEntry>>, n: nat)
    requires Cut(cut, whole, n)
    ensures FirstN(Merged(cut), n) == FirstN(Merged(whole), n)
    decreases n
  {
    if n > 0 {
      CutStep(cut, whole, n);
      var l := LeastFeed(whole, |whole|);
      if l.Some? {
        var id := whole[l.value][0].id;
        CutMergeAgrees(Passed(cut, id), Passed(whole, id), n - 1);
        MergedUnfolds(cut, n);
        MergedUnfolds(whole, n);
      }
    }
  }

  lemma MergedUnfolds(feeds: seq<seq<ChangeEntry>>, n: nat)
    requires LeastFeed(feeds, |feeds|).Some? && n > 0
    ensures var l := LeastFeed(feeds, |feeds|).value;
      FirstN(Merged(feeds), n) == [Combined(feeds, l)] + FirstN(Merged(Passed(feeds, feeds[l][0].id)), n - 1)
  {
    var l := LeastFeed(feeds, |feeds|).value;
    FirstNCons(Combined(feeds, l), Merged(Passed(feeds, feeds[l][0].id)), n);
  }

  lemma FirstNCons(e: ChangeEntry, s: seq<ChangeEntry>, n: nat)
    requires n > 0
    ensures FirstN([e] + s, n) == [e] + FirstN(s, n - 1)
  {
  }

  /** No backfill is triggered by a grant later than the stable sequence. */
  ghost predicate StableTriggers(feeds: seq<seq<ChangeEntry>>, stable: nat) {
    forall i, k :: 0 <= i < |feeds| && 0 <= k < |feeds[i]| ==> TriggerOk(feeds[i][k], stable)
  }

  ghost predicate TriggerOk(e: ChangeEntry, stable: nat) {
    e.id.triggeredBy <= stable && (e.id.triggeredBy > 0 ==> e.id.seqNo < e.id.triggeredBy)
  }

  lemma {:induction false} NoneSent(all: seq<ChangeEntry>, stable: nat)
    requires forall e :: e in all ==> e.id.seqNo > stable
    ensures Sent(all, stable, false) == []
  {
    if all != [] {
      assert all[0] in all;
      NoneSent(all[1..], stable);
    }
  }

  /** Up to the stable sequence: an ascending list is cut, not thinned. */
  lemma {:induction false} SentIsPrefix(all: seq<ChangeEntry>, stable: nat)
    requires AscendingIDs(all) && forall e :: e in all ==> TriggerOk(e, stable) && e.id.lowSeq == 0
    ensures Sent(all, stable, false) <= all
    ensures |Sent(all, stable, false)| < |all| ==> all[|Sent(all, stable, false)|].id.seqNo > stable
  {
    if all != [] {
      assert all[0] in all;
      if all[0].id.seqNo <= stable {
        SentIsPrefix(all[1..], stable);
      } else {
        forall e | e in all
          ensures e.id.seqNo > stable
        {
          var k :| 0 <= k < |all| && all[k] == e;
          assert k > 0 ==> all[0].id.Before(e.id);
        }
        NoneSent(all, stable);
      }
    }
  }

  lemma {:induction false} EntryOfIn(feed: seq<ChangeEntry>, id: SequenceID)
    requires EntryOf(feed, id).Some?
    ensures EntryOf(feed, id).value in feed && EntryOf(feed, id).value.id == id
  {
    if feed[0].id != id {
      EntryOfIn(feed[1..], id);
    }
  }

  lemma MergedTriggers(feeds: seq<seq<ChangeEntry>>, stable: nat)
    requires AscendingFeeds(feeds) && StableTriggers(feeds, stable)
    ensures forall e :: e in Merged(feeds) ==> TriggerOk(e, stable) && e.id.lowSeq == 0
  {
    forall e | e in Merged(feeds)
      ensures TriggerOk(e, stable) && e.id.lowSeq == 0
    {
      MergedRepresents(feeds, e);
      var i :| 0 <= i < |feeds| && EntryOf(feeds[i], e.id).Some?;
      EntryOfIn(feeds[i], e.id);
      var k :| 0 <= k < |feeds[i]| && feeds[i][k].id == e.id;
      assert TriggerOk(feeds[i][k], stable);
      assert AscendingFeed(feeds[i]);
    }
  }

  /** p is where an ascending list passes the stable sequence. */
  ghost predicate StableUpTo(a: seq<ChangeEntry>, p: nat, stable: nat) {
    && p <= |a| && (forall i :: 0 <= i < p ==> a[i].id.seqNo <= stable)
    && (p < |a| ==> a[p].id.seqNo > stable)
  }

  lemma PrefixesAgree(a: seq<ChangeEntry>, b: seq<ChangeEntry>, p: nat, q: nat, stable: nat, limit: nat)
    requires limit > 0 && FirstN(a, limit) == FirstN(b, limit)
    requires StableUpTo(a, p, stable) && StableUpTo(b, q, stable)
    ensures Limited(a[..p], limit) == Limited(b[..q], limit)
  {
    var f := FirstN(a, limit);
    assert |f| == (if |a| <= limit then |a| else limit) == if |b| <= limit then |b| else limit;
    assert forall i :: 0 <= i < |f| ==> a[i] == f[i] == b[i];
    if p < limit || q < limit {
      assert p == q;
    }
  }

  lemma SentUpTo(a: seq<ChangeEntry>, stable: nat)
    requires Sent(a, stable, false) <= a
    requires |Sent(a, stable, false)| < |a| ==> a[|Sent(a, stable, false)|].id.seqNo > stable
    ensures StableUpTo(a, |Sent(a, stable, false)|, stable)
    ensures Sent(a, stable, false) == a[..|Sent(a, stable, false)|]
  {
    var sent := Sent(a, stable, false);
    assert forall i :: 0 <= i < |sent| ==> a[i] == sent[i] && sent[i] in sent;
  }

  /** Cutting each channel's answer to the limit does not change what is sent under that limit. */
  lemma LimitedFeedsSuffice(cut: seq<seq<ChangeEntry>>, whole: seq<seq<ChangeEntry>>, stable: nat, limit: nat)
    requires limit > 0 && Cut(cut, whole, limit)
    requires AscendingFeeds(cut) && AscendingFeeds(whole)
    requires StableTriggers(cut, stable) && StableTriggers(whole, stable)
    ensures Limited(Sent(Merged(cut), stable, false), limit) == Limited(Sent(Merged(whole), stable, false), limit)
  {
    CutMergeAgrees(cut, whole, limit);
    MergedAscending(cut);
    MergedAscending(whole);
    MergedTriggers(cut, stable);
    MergedTriggers(whole, stable);
    SentIsPrefix(Merged(cut), stable);
    SentIsPrefix(Merged(whole), stable);
    SentUpTo(Merged(cut), stable);
    SentUpTo(Merged(whole), stable);
    PrefixesAgree(Merged(cut), Merged(whole), |Sent(Merged(cut), stable, false)|,
      |Sent(Merged(whole), stable, false)|, stable, limit);
  }

  // ---- end to end

  /** Where an iteration gets a feed from. A channel whose answer is exact: what its store holds, the reader's resume
      point in it, and the grant that triggered a backfill of it (0 for none). A channel whose store may be ahead of
      what has arrived: the cache that answers, too. Or a feed that is ready as it is: the late sequences of a channel,
      or the user's own document. */
  datatype Source =
    | Channel(name: string, bucket: set<LogEntry>, since: nat, triggeredBy: nat)
    | Cached(name: string, bucket: set<LogEntry>, since: nat, triggeredBy: nat, cache: CacheView,
             arrived: set<LogEntry>)
    | Ready(feed: seq<ChangeEntry>)

  ghost predicate Feedable(c: Source, stable: nat) {
    match c
    case Channel(_, bucket, _, triggeredBy) =>
      && SeqKeyed(bucket) && (forall e :: e in bucket ==> e.seqNo < MAX_UINT64)
      && triggeredBy <= stable && stable <= MAX_UINT64
    case Cached(_, bucket, _, triggeredBy, cache, arrived) =>
      && Agrees(cache, bucket, arrived) && (forall e :: e in bucket ==> e.seqNo < MAX_UINT64)
      && triggeredBy <= stable && stable <= MAX_UINT64
    case Ready(feed) =>
      AscendingFeed(feed) && forall k :: 0 <= k < |feed| ==> feed[k].id.triggeredBy == 0
  }

  /** Late sequences, sorted, make such a feed (db/changes.go:814-833). */
  lemma LateFeedIsReady(log: seq<LogEntry>, channel: string, stable: nat)
    requires Ascending(log) && forall e :: e in log ==> e.seqNo < MAX_UINT64
    ensures Feedable(Ready(ChannelFeed(log, 0, channel)), stable)
  {
    ChannelFeedAscending(log, 0, channel);
  }

  /** So does the entry for the user's own document (db/changes.go:298-318). */
  lemma UserFeedIsReady(sequence: nat, name: string, stable: nat)
    requires sequence < MAX_UINT64
    ensures Feedable(Ready([UserEntry(sequence, name)]), stable)
    ensures UserEntry(sequence, name).docID == "_user/" + name
      && UserEntry(sequence, name).id == SequenceID(sequence, 0, 0)
      && !UserEntry(sequence, name).deleted && UserEntry(sequence, name).removed == None
  {
  }

  function UserEntry(sequence: nat, name: string): ChangeEntry {
    MakeChangeEntry(LogEntry(sequence, "_user/" + name, "", false, false), 0, "")
  }

  /** What a channel answers without a limit. */
  ghost function LogAfter(c: Source): seq<LogEntry>
    requires !c.Ready? && SeqKeyed(c.bucket)
  {
    NewestKeyed(c.bucket);
    if c.Channel? then Sorted(From(Newest(c.bucket), c.since + 1)) else Answer(c.cache, FullLog(c.bucket), c.since, 0)
  }

  lemma LogAfterShape(c: Source, stable: nat)
    requires !c.Ready? && Feedable(c, stable)
    ensures Ascending(LogAfter(c)) && Entries(LogAfter(c)) <= From(c.bucket, c.since + 1)
    ensures c.Channel? ==> Entries(LogAfter(c)) == From(Newest(c.bucket), c.since + 1)
  {
    if c.Cached? {
      AnswerOrdered(c.cache, c.bucket, c.arrived, c.since, 0);
    }
  }

  /** The feed of a channel is cut to the limit (0 for none), the others are not. */
  ghost function FeedOf(c: Source, stable: nat, limit: nat): seq<ChangeEntry>
    requires Feedable(c, stable)
  {
    if c.Ready? then c.feed else ChannelFeed(Limited(LogAfter(c), limit), c.triggeredBy, c.name)
  }

  ghost function FeedsOf(sources: seq<Source>, stable: nat, limit: nat): (feeds: seq<seq<ChangeEntry>>)
    requires forall i :: 0 <= i < |sources| ==> Feedable(sources[i], stable)
    ensures |feeds| == |sources| && forall i :: 0 <= i < |sources| ==> feeds[i] == FeedOf(sources[i], stable, limit)
  {
    seq(|sources|, i requires 0 <= i < |sources| && Feedable(sources[i], stable) => FeedOf(sources[i], stable, limit))
  }

  lemma FeedOfShape(c: Source, stable: nat, limit: nat)
    requires Feedable(c, stable)
    ensures AscendingFeed(FeedOf(c, stable, limit))
    ensures forall k :: 0 <= k < |FeedOf(c, stable, limit)| ==> TriggerOk(FeedOf(c, stable, limit)[k], stable)
    ensures limit > 0 ==> CutFeed(FeedOf(c, stable, limit), FeedOf(c, stable, 0), limit)
  {
    if !c.Ready? {
      var log := LogAfter(c);
      LogAfterShape(c, stable);
      assert forall e :: e in log ==> e in Entries(log);
      LimitedShape(log, c.triggeredBy, c.name, stable, limit);
    }
  }

  lemma LimitedShape(log: seq<LogEntry>, triggeredBy: nat, name: string, stable: nat, limit: nat)
    requires Ascending(log) && (forall e :: e in log ==> e.seqNo < MAX_UINT64) && triggeredBy <= stable <= MAX_UINT64
    ensures var feed := ChannelFeed(Limited(log, limit), triggeredBy, name);
      && AscendingFeed(feed)
      && (forall k :: 0 <= k < |feed| ==> TriggerOk(feed[k], stable))
      && (limit > 0 ==> CutFeed(feed, ChannelFeed(log, triggeredBy, name), limit))
  {
    assert forall e :: e in Limited(log, limit) ==> e in log;
    LogsCut(log, |Limited(log, limit)|);
    ChannelFeedAscending(Limited(log, limit), triggeredBy, name);
  }

  /** The sequence IDs a source contributes: of a channel, its current changes after the resume point, or what its
      cache and store answer. */
  ghost predicate Contributes(c: Source, x: SequenceID) {
    match c
    case Channel(_, bucket, since, triggeredBy) =>
      && x == IdOf(x.seqNo, triggeredBy) && since < x.seqNo
      && exists e :: e in Newest(bucket) && e.seqNo == x.seqNo
    case Cached(_, bucket, since, triggeredBy, cache, arrived) =>
      && x == IdOf(x.seqNo, triggeredBy) && SeqKeyed(bucket)
      && exists e :: e in Answer(cache, FullLog(bucket), since, 0) && e.seqNo == x.seqNo
    case Ready(feed) => EntryOf(feed, x).Some?
  }

  /** The ID that a channel's feed gives a sequence, during a backfill and past it. */
  function IdOf(sequence: nat, triggeredBy: nat): SequenceID {
    SequenceID(sequence, if sequence >= triggeredBy then 0 else triggeredBy, 0)
  }

  /** A channel contributes every current change after the resume point that has arrived, and nothing but changes of its
      store after that point. */
  lemma CachedContributes(c: Source, stable: nat, n: LogEntry)
    requires c.Cached? && Feedable(c, stable)
    requires n in Newest(c.bucket) && n in c.arrived && c.since < n.seqNo
    ensures Contributes(c, IdOf(n.seqNo, c.triggeredBy))
  {
    AnswerComplete(c.cache, c.bucket, c.arrived, c.since, n);
  }

  lemma ContributedIsStored(c: Source, stable: nat, x: SequenceID)
    requires c.Cached? && Feedable(c, stable) && Contributes(c, x)
    ensures c.since < x.seqNo && exists e :: e in c.bucket && e.seqNo == x.seqNo
  {
    LogAfterShape(c, stable);
    var e :| e in LogAfter(c) && e.seqNo == x.seqNo;
    assert e in Entries(LogAfter(c));
  }

  lemma {:induction false} EntryOfSome(feed: seq<ChangeEntry>, k: nat)
    requires k < |feed|
    ensures EntryOf(feed, feed[k].id).Some?
  {
    if feed[0].id != feed[k].id {
      EntryOfSome(feed[1..], k - 1);
    }
  }

  lemma ChannelFeedCarries(log: seq<LogEntry>, triggeredBy: nat, channel: string, x: SequenceID)
    ensures EntryOf(ChannelFeed(log, triggeredBy, channel), x).Some? <==>
      && x.lowSeq == 0 && (exists e :: e in log && e.seqNo == x.seqNo)
      && x.triggeredBy == if x.seqNo >= triggeredBy then 0 else triggeredBy
  {
    var feed := ChannelFeed(log, triggeredBy, channel);
    if EntryOf(feed, x).Some? {
      EntryOfIn(feed, x);
      var k :| 0 <= k < |feed| && feed[k].id == x;
      assert log[k] in log;
    }
    var trigger := if x.seqNo >= triggeredBy then 0 else triggeredBy;
    if e :| e in log && e.seqNo == x.seqNo && x.lowSeq == 0 && x.triggeredBy == trigger {
      var k :| 0 <= k < |log| && log[k] == e;
      assert feed[k].id == x;
      EntryOfSome(feed, k);
    }
  }

  lemma FeedOfCarries(c: Source, stable: nat, x: SequenceID)
    requires Feedable(c, stable)
    ensures EntryOf(FeedOf(c, stable, 0), x).Some? <==> Contributes(c, x)
  {
    if !c.Ready? {
      var log := LogAfter(c);
      LogAfterShape(c, stable);
      ChannelFeedCarries(log, c.triggeredBy, c.name, x);
      assert forall e :: e in log <==> e in Entries(log);
    }
  }

  /** One iteration over channels whose answers are exact and cut to the limit, late sequences and the user's document
      sends the first `limit` of exactly the stable changes that these contribute, in order and once each. */
  lemma IterationExact(sources: seq<Source>, stable: nat, limit: nat, x: SequenceID)
    requires forall i :: 0 <= i < |sources| ==> Feedable(sources[i], stable)
    ensures var whole := Sent(Merged(FeedsOf(sources, stable, 0)), stable, false);
      && Limited(Sent(Merged(FeedsOf(sources, stable, limit)), stable, false), limit) == Limited(whole, limit)
      && AscendingIDs(whole)
      && (HasID(whole, x) <==> x.seqNo <= stable && exists i :: 0 <= i < |sources| && Contributes(sources[i], x))
  {
    var cut := FeedsOf(sources, stable, limit);
    var whole := FeedsOf(sources, stable, 0);
    FeedsShape(sources, stable, limit);
    FeedsShape(sources, stable, 0);
    if limit > 0 {
      LimitedFeedsSuffice(cut, whole, stable, limit);
    } else {
      assert cut == whole;
    }
    SentIsExact(whole, stable, x);
    forall i | 0 <= i < |sources|
      ensures EntryOf(whole[i], x).Some? <==> Contributes(sources[i], x)
    {
      FeedOfCarries(sources[i], stable, x);
    }
  }

  /** While stores are ahead of what has arrived: every current change after the resume point that has arrived and is
      stable is among what an iteration sends, which ascends, and of which the limit only cuts the end off. */
  lemma IterationComplete(sources: seq<Source>, stable: nat, limit: nat, i: nat, n: LogEntry)
    requires forall i :: 0 <= i < |sources| ==> Feedable(sources[i], stable)
    requires i < |sources| && sources[i].Cached?
    requires n in Newest(sources[i].bucket) && n in sources[i].arrived && sources[i].since < n.seqNo <= stable
    ensures var whole := Sent(Merged(FeedsOf(sources, stable, 0)), stable, false);
      && HasID(whole, IdOf(n.seqNo, sources[i].triggeredBy))
      && AscendingIDs(whole)
      && Limited(Sent(Merged(FeedsOf(sources, stable, limit)), stable, false), limit) == Limited(whole, limit)
  {
    CachedContributes(sources[i], stable, n);
    IterationExact(sources, stable, limit, IdOf(n.seqNo, sources[i].triggeredBy));
  }

  /** The limit is applied by the request itself. */
  lemma LimitIsAnswered(c: Source, limit: nat)
    requires c.Cached? && SeqKeyed(c.bucket)
    ensures Limited(LogAfter(c), limit) == Answer(c.cache, FullLog(c.bucket), c.since, limit)
  {
    AnswerLimited(c.cache, FullLog(c.bucket), c.since, limit);
  }

  lemma FeedsShape(sources: seq<Source>, stable: nat, limit: nat)
    requires forall i :: 0 <= i < |sources| ==> Feedable(sources[i], stable)
    ensures AscendingFeeds(FeedsOf(sources, stable, limit)) && StableTriggers(FeedsOf(sources, stable, limit), stable)
    ensures limit > 0 ==> Cut(FeedsOf(sources, stable, limit), FeedsOf(sources, stable, 0), limit)
  {
    forall i | 0 <= i < |sources|
      ensures AscendingFeed(FeedOf(sources[i], stable, limit))
      ensures forall k :: 0 <= k < |FeedOf(sources[i], stable, limit)| ==>
        TriggerOk(FeedOf(sources[i], stable, limit)[k], stable)
      ensures limit > 0 ==> CutFeed(FeedOf(sources[i], stable, limit), FeedOf(sources[i], stable, 0), limit)
    {
      FeedOfShape(sources[i], stable, limit);
    }
  }
}
