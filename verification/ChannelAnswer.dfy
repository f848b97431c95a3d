/** What a request for the changes of a channel since a sequence returns, whether it is served from the
    cache, from a query, or from both joined at their one-row overlap (db/channel_cache.go:269-402). */
module ChannelAnswer {
  import opened LogEntries
  import opened ChannelCacheSpec
  import opened ChannelQuery
  import opened ChannelStore

  /** How many cached entries the requester has seen, scanning from the newest. */
  function Seen(logs: seq<LogEntry>, since: nat): (k: nat)
    ensures k <= |logs|
    ensures k > 0 ==> logs[k - 1].seqNo <= since
  {
    if logs == [] then 0
    else if logs[|logs| - 1].seqNo > since then Seen(logs[..|logs| - 1], since)
    else |logs|
  }

  lemma {:induction false} UnseenFrom(logs: seq<LogEntry>, since: nat, i: nat)
    requires Seen(logs, since) <= i < |logs|
    ensures since < logs[i].seqNo
  {
    if i < |logs| - 1 {
      UnseenFrom(logs[..|logs| - 1], since, i);
    }
  }

  /** From which sequence on the cached answer is complete. */
  function CachedFrom(v: CacheView, since: nat): nat {
    var k := Seen(v.logs, since);
    if k > 0 then v.logs[k - 1].seqNo + 1 else v.validFrom
  }

  function CachedAfter(v: CacheView, since: nat): seq<LogEntry> {
    v.logs[Seen(v.logs, since)..]
  }

  predicate Hit(v: CacheView, since: nat) {
    CachedFrom(v, since) <= since + 1
  }

  /** Query rows followed by cached entries, dropping the overlapping row, within the limit. */
  function Joined(rows: seq<LogEntry>, cached: seq<LogEntry>, limit: nat): seq<LogEntry> {
    if (limit == 0 || |rows| < limit) && |cached| > 0 then
      var rest := if |rows| > 0 && cached[0].seqNo == rows[|rows| - 1].seqNo then cached[1..] else cached;
      if 0 < limit < |rows| + |rest| then rows + rest[..limit - |rows|] else rows + rest
    else rows
  }

  /** The answer without the active-only option; `log` is what the store holds. */
  function Answer(v: CacheView, log: seq<LogEntry>, since: nat, limit: nat): seq<LogEntry> {
    if Hit(v, since) then Limited(CachedAfter(v, since), limit)
    else Joined(QueryChannels(log, since + 1, v.validFrom, limit), Limited(CachedAfter(v, since), limit), limit)
  }

  lemma MissSeesNothing(v: CacheView, since: nat)
    requires !Hit(v, since)
    ensures Seen(v.logs, since) == 0 && CachedAfter(v, since) == v.logs && CachedFrom(v, since) == v.validFrom
  {
  }

  /** A limit only cuts the answer: joining cut pieces and cutting the join come to the same. */
  lemma JoinedLimited(range: seq<LogEntry>, cached: seq<LogEntry>, limit: nat)
    ensures Joined(Limited(range, limit), Limited(cached, limit), limit) == Limited(Joined(range, cached, 0), limit)
  {
    if limit > 0 && cached != [] && |range| < limit {
      var overlap := range != [] && cached[0].seqNo == range[|range| - 1].seqNo;
      var short := Limited(cached, limit);
      assert short[0] == cached[0];
      var rest := if overlap then short[1..] else short;
      var all := if overlap then cached[1..] else cached;
      var room := limit - |range|;
      assert room < |all| ==> room <= |rest| && rest[..room] == all[..room];
      assert room >= |all| ==> rest == all;
    }
  }

  lemma AnswerLimited(v: CacheView, log: seq<LogEntry>, since: nat, limit: nat)
    ensures Answer(v, log, since, limit) == Limited(Answer(v, log, since, 0), limit)
  {
    if !Hit(v, since) {
      JoinedLimited(Range(log, since + 1, v.validFrom), CachedAfter(v, since), limit);
    }
  }

  /** Rows that end where the cached entries begin, or before. */
  lemma JoinedLog(rows: seq<LogEntry>, cached: seq<LogEntry>)
    requires Ascending(rows) && Ascending(cached)
    requires rows != [] && cached != [] ==>
      rows[|rows| - 1] == cached[0] || rows[|rows| - 1].seqNo < cached[0].seqNo
    ensures Ascending(Joined(rows, cached, 0))
    ensures Entries(Joined(rows, cached, 0)) == Entries(rows) + Entries(cached)
  {
    JoinedWhole(rows, cached);
    if cached == [] {
    } else if rows != [] && rows[|rows| - 1] == cached[0] {
      OverlapLog(rows, cached);
    } else {
      LogsJoin(rows, cached);
      EntriesAppend(rows, cached);
    }
  }

  lemma JoinedWhole(rows: seq<LogEntry>, cached: seq<LogEntry>)
    ensures Joined(rows, cached, 0) ==
      if cached == [] then rows
      else if rows != [] && cached[0].seqNo == rows[|rows| - 1].seqNo then rows + cached[1..]
      else rows + cached
  {
  }

  lemma OverlapLog(rows: seq<LogEntry>, cached: seq<LogEntry>)
    requires Ascending(rows) && Ascending(cached) && rows != [] && cached != []
    requires rows[|rows| - 1] == cached[0]
    ensures Ascending(rows + cached[1..])
    ensures Entries(rows + cached[1..]) == Entries(rows) + Entries(cached)
  {
    LogsCut(cached, 1);
    assert cached[..1] == [cached[0]];
    LogsJoin(rows, cached[1..]);
    EntriesAppend(rows, cached[1..]);
  }

  /** The unlimited answer holds what was queried and what is cached, in order. */
  lemma AnswerEntries(v: CacheView, bucket: set<LogEntry>, arrived: set<LogEntry>, since: nat)
    requires Agrees(v, bucket, arrived)
    ensures var r := Answer(v, FullLog(bucket), since, 0);
      && Ascending(r)
      && Entries(r) == From(Entries(v.logs), since + 1) +
           (if Hit(v, since) then {} else Within(Newest(bucket), since + 1, v.validFrom))
  {
    var k := Seen(v.logs, since);
    LogsCut(v.logs, k);
    AfterEntries(v.logs, since);
    if !Hit(v, since) {
      MissSeesNothing(v, since);
      MissEntries(v, bucket, since, Range(FullLog(bucket), since + 1, v.validFrom));
    }
  }

  lemma AfterEntries(logs: seq<LogEntry>, since: nat)
    requires Ascending(logs)
    ensures Entries(logs[Seen(logs, since)..]) == From(Entries(logs), since + 1)
  {
    var k := Seen(logs, since);
    if k > 0 {
      SuffixEntries(logs, k);
      forall e | e in logs && logs[k - 1].seqNo < e.seqNo
        ensures since < e.seqNo
      {
        var i :| 0 <= i < |logs| && logs[i] == e;
        UnseenFrom(logs, since, i);
      }
    } else {
      forall i | 0 <= i < |logs|
        ensures since < logs[i].seqNo
      {
        UnseenFrom(logs, since, i);
      }
      assert logs[0..] == logs;
    }
  }

  lemma MeetAt(rows: seq<LogEntry>, cached: seq<LogEntry>, pivot: nat, bucket: set<LogEntry>)
    requires SeqKeyed(bucket) && Entries(rows) <= bucket && Entries(cached) <= bucket
    requires forall e :: e in Entries(rows) ==> e.seqNo <= pivot
    requires forall e :: e in Entries(cached) ==> pivot <= e.seqNo
    ensures rows != [] && cached != [] ==>
      rows[|rows| - 1] == cached[0] || rows[|rows| - 1].seqNo < cached[0].seqNo
  {
    if rows != [] && cached != [] {
      assert rows[|rows| - 1] in Entries(rows) && cached[0] in Entries(cached);
    }
  }

  lemma MissJoined(v: CacheView, bucket: set<LogEntry>, since: nat, rows: seq<LogEntry>)
    requires SeqKeyed(bucket) && WellFormed(v) && Entries(v.logs) <= bucket
    requires Ascending(rows) && Entries(rows) == Within(Newest(bucket), since + 1, v.validFrom)
    ensures Ascending(Joined(rows, v.logs, 0))
    ensures Entries(Joined(rows, v.logs, 0)) == Entries(v.logs) + Within(Newest(bucket), since + 1, v.validFrom)
  {
    assert forall e :: e in Entries(v.logs) ==> e in v.logs;
    MeetAt(rows, v.logs, v.validFrom, bucket);
    JoinedLog(rows, v.logs);
  }

  lemma MissEntries(v: CacheView, bucket: set<LogEntry>, since: nat, rows: seq<LogEntry>)
    requires SeqKeyed(bucket) && WellFormed(v) && Entries(v.logs) <= bucket && 0 < v.validFrom
    requires rows == Range(FullLog(bucket), since + 1, v.validFrom)
    ensures Ascending(Joined(rows, v.logs, 0))
    ensures Entries(Joined(rows, v.logs, 0)) == Entries(v.logs) + Within(Newest(bucket), since + 1, v.validFrom)
  {
    RangeLog(FullLog(bucket), since + 1, v.validFrom);
    RangeIsWithin(bucket, since + 1, v.validFrom);
    MissJoined(v, bucket, since, rows);
  }

  /** Once the feed has caught up, the answer is exactly the first `limit` entries (all of them if 0) of
      the full channel log after `since`. */
  lemma AnswerExact(v: CacheView, bucket: set<LogEntry>, since: nat, limit: nat)
    requires Agrees(v, bucket, bucket)
    ensures SeqKeyed(From(Newest(bucket), since + 1))
    ensures Answer(v, FullLog(bucket), since, limit) == Limited(Sorted(From(Newest(bucket), since + 1)), limit)
  {
    NewestKeyed(bucket);
    AnswerEntries(v, bucket, bucket, since);
    ExactEntries(v, bucket, since);
    IsSorted(Answer(v, FullLog(bucket), since, 0), From(Newest(bucket), since + 1));
    AnswerLimited(v, FullLog(bucket), since, limit);
  }

  lemma ExactEntries(v: CacheView, bucket: set<LogEntry>, since: nat)
    requires Agrees(v, bucket, bucket)
    ensures From(Newest(bucket), since + 1) == From(Entries(v.logs), since + 1) +
              (if Hit(v, since) then {} else Within(Newest(bucket), since + 1, v.validFrom))
  {
    ExactWhenCaughtUp(v, bucket);
    assert Entries(v.logs) == From(Newest(bucket), v.validFrom);
    if Hit(v, since) {
      HitReaches(v, since);
    } else {
      MissSeesNothing(v, since);
    }
  }

  lemma HitReaches(v: CacheView, since: nat)
    requires WellFormed(v) && Hit(v, since)
    ensures v.validFrom <= since + 1
  {
    var k := Seen(v.logs, since);
    if k > 0 {
      assert v.logs[k - 1] in v.logs;
    }
  }

  /** While the store is ahead of the feed, the answer is still ordered, has one entry per document and holds
      only changes of the store after `since`. */
  lemma AnswerOrdered(v: CacheView, bucket: set<LogEntry>, arrived: set<LogEntry>, since: nat, limit: nat)
    requires Agrees(v, bucket, arrived)
    ensures IsOrderedAnswer(Answer(v, FullLog(bucket), since, limit), bucket, since)
  {
    WholeOrdered(v, bucket, arrived, since);
    AnswerLimited(v, FullLog(bucket), since, limit);
    LimitedOrdered(Answer(v, FullLog(bucket), since, 0), limit, bucket, since);
  }

  lemma WholeOrdered(v: CacheView, bucket: set<LogEntry>, arrived: set<LogEntry>, since: nat)
    requires Agrees(v, bucket, arrived)
    ensures IsOrderedAnswer(Answer(v, FullLog(bucket), since, 0), bucket, since)
  {
    AnswerEntries(v, bucket, arrived, since);
    JoinOnePerDoc(v, bucket, since);
    DistinctIsOnePerDoc(Answer(v, FullLog(bucket), since, 0));
  }

  lemma LimitedOrdered(whole: seq<LogEntry>, limit: nat, bucket: set<LogEntry>, since: nat)
    requires IsOrderedAnswer(whole, bucket, since)
    ensures IsOrderedAnswer(Limited(whole, limit), bucket, since)
  {
    PrefixOrdered(whole, Limited(whole, limit), bucket, since);
  }

  ghost predicate IsOrderedAnswer(r: seq<LogEntry>, bucket: set<LogEntry>, since: nat) {
    Ascending(r) && OnePerDoc(r) && Entries(r) <= From(bucket, since + 1)
  }

  lemma PrefixOrdered(whole: seq<LogEntry>, r: seq<LogEntry>, bucket: set<LogEntry>, since: nat)
    requires IsOrderedAnswer(whole, bucket, since) && r <= whole
    ensures IsOrderedAnswer(r, bucket, since)
  {
    LogsCut(whole, |r|);
    assert r == whole[..|r|];
  }

  /** ... and it misses no current change that has arrived. */
  lemma AnswerComplete(v: CacheView, bucket: set<LogEntry>, arrived: set<LogEntry>, since: nat, n: LogEntry)
    requires Agrees(v, bucket, arrived)
    requires n in Newest(bucket) && n in arrived && since < n.seqNo
    ensures n in Answer(v, FullLog(bucket), since, 0)
  {
    AnswerEntries(v, bucket, arrived, since);
    ArrivedIsAnswered(v, bucket, arrived, since, n);
    assert n in Entries(Answer(v, FullLog(bucket), since, 0));
  }

  lemma ArrivedIsAnswered(v: CacheView, bucket: set<LogEntry>, arrived: set<LogEntry>, since: nat, n: LogEntry)
    requires Agrees(v, bucket, arrived) && n in Newest(bucket) && n in arrived && since < n.seqNo
    ensures n in From(Entries(v.logs), since + 1) +
              (if Hit(v, since) then {} else Within(Newest(bucket), since + 1, v.validFrom))
  {
    if Hit(v, since) {
      HitReaches(v, since);
    }
    if v.validFrom <= n.seqNo {
      assert n in Entries(v.logs);
    }
  }

  lemma JoinOnePerDoc(v: CacheView, bucket: set<LogEntry>, since: nat)
    requires SeqKeyed(bucket) && WellFormed(v) && Entries(v.logs) <= bucket
    ensures DistinctDocs(From(Entries(v.logs), since + 1) + Within(Newest(bucket), since + 1, v.validFrom))
    ensures DistinctDocs(From(Entries(v.logs), since + 1))
  {
    DistinctIsOnePerDoc(v.logs);
    forall x, y | x in Entries(v.logs) && y in Within(Newest(bucket), since + 1, v.validFrom) && x.docID == y.docID
      ensures x == y
    {
      assert v.validFrom <= x.seqNo <= y.seqNo;
    }
  }

  // ---- the active-only option

  /** The answer promises up to `limit` active entries (db/channel_cache.go:275-280): it holds that many, or
      there is nothing more to return. */
  ghost predicate Enough(r: seq<LogEntry>, whole: seq<LogEntry>, limit: nat) {
    limit == 0 || ActiveCount(r) >= limit || r == whole
  }

  lemma {:induction false} ActiveCountGrows(a: seq<LogEntry>, b: seq<LogEntry>)
    requires a <= b
    ensures ActiveCount(a) <= ActiveCount(b)
  {
    ActiveCountJoin(a, b[|a|..]);
    assert b == a + b[|a|..];
  }

  /** After how many entries the answer is cut if the queried stretch lacks active rows: inactive ones count too. */
  function CutAt(range: seq<LogEntry>, limit: nat): nat {
    if |range| < limit then limit else |range|
  }

  /** Joining active-only rows with cached entries gives enough exactly when the queried stretch alone has enough
      active rows, or the cut does no harm. */
  lemma JoinedEnoughIff(range: seq<LogEntry>, cached: seq<LogEntry>, rows: seq<LogEntry>, limit: nat)
    requires limit > 0 && Paged(range, limit, rows)
    ensures var whole := Joined(range, cached, 0);
            var cut := CutAt(range, limit);
      Enough(Joined(rows, cached, limit), whole, limit) <==>
        (ActiveCount(range) >= limit || |whole| <= cut || ActiveCount(whole[..cut]) >= limit)
  {
    var whole := Joined(range, cached, 0);
    assert range <= whole;
    if ActiveCount(range) >= limit {
      assert Joined(rows, cached, limit) == rows;
      ActiveCountGrows(rows, range);
    } else {
      ActiveCountGrows(rows, range);
      assert rows == range;
      ActiveCountGrows(range, whole);
      if |range| >= limit {
        assert whole[..|range|] == range;
      } else {
        WholeCut(range, cached, limit);
      }
    }
  }

  lemma WholeCut(range: seq<LogEntry>, cached: seq<LogEntry>, limit: nat)
    requires 0 < limit && |range| < limit
    ensures Joined(range, cached, limit) == Limited(Joined(range, cached, 0), limit)
  {
  }

  /** Whatever the pages come to, joining active-only rows with cached entries gives a first part of all there is. */
  lemma JoinedIsPrefix(range: seq<LogEntry>, cached: seq<LogEntry>, rows: seq<LogEntry>, limit: nat)
    requires Paged(range, limit, rows)
    ensures Joined(rows, cached, limit) <= Joined(range, cached, 0)
  {
    var whole := Joined(range, cached, 0);
    assert range <= whole;
    if rows == range {
      if limit == 0 || |rows| < limit {
        RoomPrefix(range, cached, limit);
      }
    } else {
      assert Joined(rows, cached, limit) == rows;
    }
  }

  lemma RoomPrefix(range: seq<LogEntry>, cached: seq<LogEntry>, limit: nat)
    requires limit == 0 || |range| < limit
    ensures Joined(range, cached, limit) <= Joined(range, cached, 0)
  {
    if limit > 0 {
      WholeCut(range, cached, limit);
    }
  }
}
