/** What a channel cache owes to the store (the guarantees of db/channel_cache.go:27-35).

    `bucket` is every change of the channel ever written; `arrived` is the part of it that the
    mutation feed has delivered (or that predates the cache). The store may be ahead of the feed,
    so a cached entry can be superseded in the store by one that has not arrived yet. */
module ChannelStore {
  import opened LogEntries
  import opened ChannelCacheSpec
  import opened ChannelQuery

  /** Completeness: from validFrom on, every change that is current in the store and has arrived is cached. */
  ghost predicate Complete(v: CacheView, bucket: set<LogEntry>, arrived: set<LogEntry>) {
    forall n :: n in Newest(bucket) && n in arrived && v.validFrom <= n.seqNo ==> n in v.logs
  }

  ghost predicate Agrees(v: CacheView, bucket: set<LogEntry>, arrived: set<LogEntry>) {
    && SeqKeyed(bucket) && arrived <= bucket
    && WellFormed(v) && Entries(v.logs) <= bucket
    && Complete(v, bucket, arrived)
  }

  lemma NewestKeyed(bucket: set<LogEntry>)
    requires SeqKeyed(bucket)
    ensures SeqKeyed(Newest(bucket))
    ensures forall start, end :: SeqKeyed(Within(Newest(bucket), start, end))
    ensures forall start :: SeqKeyed(From(Newest(bucket), start))
  {
  }

  /** The full channel log: the newest entry of each document, in order. */
  ghost function FullLog(bucket: set<LogEntry>): (log: seq<LogEntry>)
    requires SeqKeyed(bucket)
    ensures Ascending(log) && OnePerDoc(log) && Entries(log) == Newest(bucket)
  {
    NewestKeyed(bucket);
    var log := Sorted(Newest(bucket));
    FullLogOnePerDoc(bucket, log);
    log
  }

  lemma FullLogOnePerDoc(bucket: set<LogEntry>, log: seq<LogEntry>)
    requires Ascending(log) && Entries(log) == Newest(bucket)
    ensures OnePerDoc(log)
  {
    forall i, j | 0 <= i < j < |log|
      ensures log[i].docID != log[j].docID
    {
      assert log[i] in Entries(log) && log[j] in Entries(log);
    }
  }

  /** A cached entry whose document's current change has arrived is that current change. */
  lemma CachedIsCurrent(v: CacheView, bucket: set<LogEntry>, arrived: set<LogEntry>, e: LogEntry, n: LogEntry)
    requires Agrees(v, bucket, arrived)
    requires e in v.logs && n in Newest(bucket) && n in arrived && n.docID == e.docID
    ensures e == n
  {
    assert e in Entries(v.logs);
    var i :| 0 <= i < |v.logs| && v.logs[i] == e;
    var j :| 0 <= j < |v.logs| && v.logs[j] == n;
  }

  /** When the feed has caught up, the cached log is exactly the full channel log from validFrom on. */
  lemma ExactWhenCaughtUp(v: CacheView, bucket: set<LogEntry>)
    requires Agrees(v, bucket, bucket)
    ensures SeqKeyed(From(Newest(bucket), v.validFrom))
    ensures v.logs == Sorted(From(Newest(bucket), v.validFrom))
  {
    NewestKeyed(bucket);
    forall e | e in v.logs
      ensures e in From(Newest(bucket), v.validFrom)
    {
      assert e in Entries(v.logs);
      var n := NewestExists(e, bucket);
      CachedIsCurrent(v, bucket, bucket, e, n);
    }
    assert Entries(v.logs) == From(Newest(bucket), v.validFrom);
    IsSorted(v.logs, From(Newest(bucket), v.validFrom));
  }

  // ---- every step keeps the agreement

  lemma WriteAgrees(v: CacheView, bucket: set<LogEntry>, arrived: set<LogEntry>, e: LogEntry)
    requires Agrees(v, bucket, arrived)
    requires forall x :: x in bucket ==> x.seqNo != e.seqNo
    ensures Agrees(v, bucket + {e}, arrived)
  {
    forall n | n in Newest(bucket + {e}) && n in arrived
      ensures n in Newest(bucket)
    {
    }
  }

  lemma DropAgrees(v: CacheView, bucket: set<LogEntry>, arrived: set<LogEntry>, k: nat)
    requires Agrees(v, bucket, arrived) && k <= |v.logs|
    ensures Agrees(Dropped(v, k), bucket, arrived)
  {
    DroppedWellFormed(v, k);
    LogsCut(v.logs, k);
    if k > 0 {
      SuffixEntries(v.logs, k);
      assert v.logs[k - 1] in v.logs;
    }
  }

  lemma AddAgrees(v: CacheView, bucket: set<LogEntry>, arrived: set<LogEntry>, change: LogEntry, maxLength: nat)
    requires Agrees(v, bucket, arrived) && change in bucket
    ensures Fits(v.logs, change)
    ensures Agrees(Added(v, change, maxLength), bucket, arrived + {change})
  {
    AgreeingFits(v, bucket, change);
    if v.validFrom <= change.seqNo {
      UpsertWellFormed(v, change);
      var grown := CacheView(Sorted(Upserted(Entries(v.logs), change)), v.validFrom);
      UpsertComplete(v, bucket, arrived, change, grown);
      PruneAgrees(grown, bucket, arrived + {change}, maxLength);
    }
  }

  lemma AgreeingFits(v: CacheView, bucket: set<LogEntry>, change: LogEntry)
    requires SeqKeyed(bucket) && Entries(v.logs) <= bucket && change in bucket
    ensures Fits(v.logs, change)
  {
    forall e | e in v.logs && e.seqNo == change.seqNo
      ensures e.docID == change.docID
    {
      assert e in Entries(v.logs);
    }
  }

  lemma PruneAgrees(v: CacheView, bucket: set<LogEntry>, arrived: set<LogEntry>, maxLength: nat)
    requires Agrees(v, bucket, arrived)
    ensures Agrees(LengthPruned(v, maxLength), bucket, arrived)
  {
    if |v.logs| > maxLength {
      DropAgrees(v, bucket, arrived, |v.logs| - maxLength);
    }
  }

  ghost predicate DistinctDocs(entries: set<LogEntry>) {
    forall x, y :: x in entries && y in entries && x.docID == y.docID ==> x == y
  }

  lemma DistinctIsOnePerDoc(log: seq<LogEntry>)
    requires Ascending(log)
    ensures OnePerDoc(log) <==> DistinctDocs(Entries(log))
  {
    if DistinctDocs(Entries(log)) {
      forall i, j | 0 <= i < j < |log|
        ensures log[i].docID != log[j].docID
      {
        assert log[i] in Entries(log) && log[j] in Entries(log);
      }
    }
  }

  lemma UpsertWellFormed(v: CacheView, change: LogEntry)
    requires WellFormed(v) && Fits(v.logs, change) && v.validFrom <= change.seqNo
    ensures SeqKeyed(Upserted(Entries(v.logs), change))
    ensures WellFormed(CacheView(Sorted(Upserted(Entries(v.logs), change)), v.validFrom))
  {
    AscendingDistinct(v.logs);
    DistinctIsOnePerDoc(v.logs);
    UpsertedKeyed(Entries(v.logs), change);
    var entries := Upserted(Entries(v.logs), change);
    assert DistinctDocs(entries);
    assert forall e :: e in entries ==> v.validFrom <= e.seqNo;
    SortedWellFormed(entries, v.validFrom);
  }

  lemma SortedWellFormed(entries: set<LogEntry>, validFrom: nat)
    requires SeqKeyed(entries) && DistinctDocs(entries) && forall e :: e in entries ==> validFrom <= e.seqNo
    ensures WellFormed(CacheView(Sorted(entries), validFrom))
  {
    var log := Sorted(entries);
    DistinctIsOnePerDoc(log);
    assert forall e :: e in log ==> e in Entries(log);
  }

  lemma UpsertComplete(v: CacheView, bucket: set<LogEntry>, arrived: set<LogEntry>, change: LogEntry, grown: CacheView)
    requires Agrees(v, bucket, arrived) && change in bucket && v.validFrom <= change.seqNo
    requires Entries(grown.logs) == Upserted(Entries(v.logs), change) && grown.validFrom == v.validFrom
    requires WellFormed(grown)
    ensures Agrees(grown, bucket, arrived + {change})
  {
    forall n | n in Newest(bucket) && n in arrived + {change} && v.validFrom <= n.seqNo
      ensures n in grown.logs
    {
      assert n in Entries(v.logs) || n == change;
      assert n in Entries(grown.logs);
    }
  }

  /** `rows` are the current changes of a store snapshot in [start, to]. */
  ghost predicate Covers(rows: seq<LogEntry>, snapshot: set<LogEntry>, start: nat, to: nat) {
    && IsResult(rows, start)
    && Entries(rows) == Within(Newest(snapshot), start, to)
  }

  /** A change that became current after the snapshot and has arrived, yet belongs into a stretch [low, high)
      that a prepend opens: the snapshot cannot have it, and the cache ignored it. */
  ghost predicate Missed(n: LogEntry, low: nat, high: nat, bucket: set<LogEntry>, arrived: set<LogEntry>,
                         snapshot: set<LogEntry>)
  {
    n in Newest(bucket) && n in arrived && n !in snapshot && low <= n.seqNo < high
  }

  ghost predicate NothingMissed(low: nat, high: nat, bucket: set<LogEntry>, arrived: set<LogEntry>,
                                snapshot: set<LogEntry>)
  {
    forall n :: !Missed(n, low, high, bucket, arrived, snapshot)
  }

  /** Prepending query results keeps the cache in agreement with a store that has moved on since the
      query, exactly when no late change was missed. */
  lemma PrependAgreesIff(v: CacheView, bucket: set<LogEntry>, arrived: set<LogEntry>, snapshot: set<LogEntry>,
                         rows: seq<LogEntry>, start: nat, to: nat, maxLength: nat)
    requires Agrees(v, bucket, arrived) && snapshot <= bucket && Covers(rows, snapshot, start, to)
    requires 0 < maxLength && |v.logs| <= maxLength
    ensures Agrees(Prepended(v, rows, start, to, maxLength), bucket, arrived) <==>
      NothingMissed(OpenedFrom(v, rows, start, to, maxLength), v.validFrom, bucket, arrived, snapshot)
  {
    var v' := Prepended(v, rows, start, to, maxLength);
    PrependOpens(v, rows, start, to, maxLength);
    PrependedWellFormed(v, rows, start, to, maxLength);
    PrependSound(v, rows, start, to, maxLength);
    assert Entries(v'.logs) <= bucket;
    forall n | n in Newest(bucket) && n in arrived && v'.validFrom <= n.seqNo
      ensures n in v'.logs <==> !Missed(n, v'.validFrom, v.validFrom, bucket, arrived, snapshot)
    {
      if v.validFrom <= n.seqNo {
        assert n in Entries(v.logs);
      } else if n in snapshot {
        PrependComplete(v, bucket, snapshot, rows, start, to, maxLength, n);
      } else {
        assert n !in Entries(rows) && n !in v.logs;
        assert n !in Entries(v'.logs);
      }
    }
  }

  /** Nothing is cached that was not cached or queried, and nothing cached is lost. */
  lemma PrependSound(v: CacheView, rows: seq<LogEntry>, start: nat, to: nat, maxLength: nat)
    requires 0 < maxLength
    ensures var v' := Prepended(v, rows, start, to, maxLength);
      Entries(v.logs) <= Entries(v'.logs) <= Entries(v.logs) + Entries(rows)
  {
    if rows != [] && v.validFrom <= to {
      if v.logs == [] {
      } else if |v.logs| < maxLength && start < v.validFrom {
        var eligible := Eligible(rows, v);
        EligibleEntries(rows, v);
        EntriesAppend(eligible, v.logs);
        var capacity := maxLength - |v.logs|;
        if |eligible| >= capacity {
          EntriesAppend(Newer(eligible, capacity), v.logs);
          assert Entries(Newer(eligible, capacity)) <= Entries(eligible);
        }
      }
    }
  }

  lemma PrependComplete(v: CacheView, bucket: set<LogEntry>, snapshot: set<LogEntry>,
                        rows: seq<LogEntry>, start: nat, to: nat, maxLength: nat, n: LogEntry)
    requires WellFormed(v) && Entries(v.logs) <= bucket && snapshot <= bucket && Covers(rows, snapshot, start, to)
    requires 0 < maxLength && |v.logs| <= maxLength
    requires n in Newest(bucket) && n in snapshot
    requires Prepended(v, rows, start, to, maxLength).validFrom <= n.seqNo < v.validFrom
    ensures n in Prepended(v, rows, start, to, maxLength).logs
  {
    assert n in Newest(snapshot);
    assert start <= n.seqNo <= to ==> n in Entries(rows);
    if rows == [] {
    } else if v.logs == [] {
      EmptyCacheTakes(rows, start, maxLength);
      assert n in Entries(rows);
      KeptFrom(rows, maxLength, n);
    } else {
      forall e | e in v.logs
        ensures e.docID != n.docID
      {
        assert e in Entries(v.logs);
      }
      var eligible := Eligible(rows, v);
      EligibleLog(rows, v);
      EligibleEntries(rows, v);
      FrontReaches(v, rows, start, maxLength);
      assert n in Entries(rows);
      assert n in Entries(eligible);
      KeptFrom(eligible, maxLength - |v.logs|, n);
    }
  }

  lemma EmptyCacheTakes(rows: seq<LogEntry>, start: nat, maxLength: nat)
    requires rows != [] && IsResult(rows, start) && 0 < maxLength
    ensures |rows| > maxLength ==> start <= Newer(rows, maxLength)[0].seqNo
  {
    if |rows| > maxLength {
      assert Newer(rows, maxLength)[0] in rows;
    }
  }

  lemma FrontReaches(v: CacheView, rows: seq<LogEntry>, start: nat, maxLength: nat)
    requires IsResult(rows, start) && |v.logs| < maxLength
    ensures var eligible := Eligible(rows, v);
            var capacity := maxLength - |v.logs|;
      |eligible| >= capacity ==> start <= Newer(eligible, capacity)[0].seqNo
  {
    EligibleEntries(rows, v);
    var eligible := Eligible(rows, v);
    var capacity := maxLength - |v.logs|;
    if |eligible| >= capacity {
      assert Newer(eligible, capacity)[0] in Entries(eligible);
    }
  }

  /** Keeping the newest rows keeps every row from the oldest kept one on. */
  lemma KeptFrom(rows: seq<LogEntry>, n: nat, e: LogEntry)
    requires Ascending(rows) && e in rows && 0 < n
    requires n <= |rows| ==> Newer(rows, n)[0].seqNo <= e.seqNo
    ensures e in Newer(rows, n)
  {
    if n <= |rows| {
      var i :| 0 <= i < |rows| && rows[i] == e;
      var k := |rows| - n;
      assert Newer(rows, n)[0] == rows[k];
      assert i >= k;
      assert rows[k..][i - k] == e;
    }
  }

  // ---- what a feed query covers

  /** Up to which sequence the rows of a feed query are complete. */
  function ValidTo(rows: seq<LogEntry>, end: nat, limit: nat): nat {
    if limit != 0 && |rows| >= limit then rows[|rows| - 1].seqNo else end
  }

  lemma FeedRowsPrefix(log: seq<LogEntry>, start: nat, end: nat, limit: nat, activeOnly: bool, rows: seq<LogEntry>)
    requires IsFeedRows(log, start, end, limit, activeOnly, rows)
    ensures rows <= Range(log, start, end)
    ensures limit == 0 || |rows| < limit ==> rows == Range(log, start, end)
  {
  }

  lemma FeedRowsCover(snapshot: set<LogEntry>, start: nat, end: nat, limit: nat, activeOnly: bool, rows: seq<LogEntry>)
    requires SeqKeyed(snapshot) && end > 0
    requires IsFeedRows(FullLog(snapshot), start, end, limit, activeOnly, rows)
    ensures Covers(rows, snapshot, start, ValidTo(rows, end, limit))
    ensures ValidTo(rows, end, limit) <= end
  {
    var log := FullLog(snapshot);
    RangeLog(log, start, end);
    FeedRowsPrefix(log, start, end, limit, activeOnly, rows);
    RangeIsWithin(snapshot, start, end);
    PrefixIsCover(Range(log, start, end), rows, snapshot, start, end, limit);
  }

  lemma RangeIsWithin(snapshot: set<LogEntry>, start: nat, end: nat)
    requires SeqKeyed(snapshot) && end > 0
    ensures Entries(Range(FullLog(snapshot), start, end)) == Within(Newest(snapshot), start, end)
  {
    var log := FullLog(snapshot);
    RangeRows(log, start, end);
    assert forall e :: e in log <==> e in Entries(log);
  }

  lemma PrefixIsCover(range: seq<LogEntry>, rows: seq<LogEntry>, snapshot: set<LogEntry>, start: nat, end: nat,
                      limit: nat)
    requires Ascending(range) && OnePerDoc(range) && Entries(range) == Within(Newest(snapshot), start, end)
    requires rows <= range && (limit == 0 || |rows| < limit ==> rows == range)
    ensures Covers(rows, snapshot, start, ValidTo(rows, end, limit))
    ensures ValidTo(rows, end, limit) <= end
  {
    LogsCut(range, |rows|);
    assert rows == range[..|rows|];
    assert forall e :: e in rows ==> e in Entries(range);
    if limit != 0 && |rows| >= limit {
      PrefixWithin(range, |rows|, Newest(snapshot), start, end);
    }
  }

  lemma PrefixWithin(range: seq<LogEntry>, k: nat, newest: set<LogEntry>, start: nat, end: nat)
    requires Ascending(range) && 0 < k <= |range| && Entries(range) == Within(newest, start, end)
    ensures Entries(range[..k]) == Within(newest, start, range[k - 1].seqNo) && range[k - 1].seqNo <= end
  {
    PrefixCovers(range, k);
    assert range[k - 1] in Entries(range);
    assert forall e :: e in range <==> e in Entries(range);
  }

  lemma PrefixCovers(range: seq<LogEntry>, k: nat)
    requires Ascending(range) && 0 < k <= |range|
    ensures forall e :: e in range[..k] <==> e in range && e.seqNo <= range[k - 1].seqNo
  {
    SuffixEntries(range, k);
    assert range == range[..k] + range[k..];
    forall e | e in range[..k]
      ensures e.seqNo <= range[k - 1].seqNo
    {
      var i :| 0 <= i < k && range[i] == e;
    }
  }
}
