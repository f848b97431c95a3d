/** Requests for active changes only (db/channel_cache.go:269-402): when they return as many as they should. */
module ActiveOnlyRequests {
  import opened Options
  import opened LogEntries
  import opened ChannelCacheSpec
  import opened ChannelQuery
  import opened ChannelStore
  import opened ChannelAnswer
  import opened ChannelCache

  /** A request for active changes against a cache that agrees with the store holds `limit` of them, or all there is
      to return, exactly if it is served from the cache, or the stretch it queries has enough active rows, or those
      up to the cut are enough, or the cut cuts nothing. */
  lemma ActiveOnlyEnoughIff(v: CacheView, v': CacheView, since: nat, limit: nat, bucket: set<LogEntry>,
                            arrived: set<LogEntry>, rows: seq<LogEntry>, maxLength: nat, response: Response)
    requires Agrees(v, bucket, arrived)
    requires Responds(v, v', since, limit, true, false, Some(FullLog(bucket)), rows, maxLength, response)
    ensures var whole := Answer(v, FullLog(bucket), since, 0);
            var range := Range(FullLog(bucket), since + 1, v.validFrom);
            var cut := CutAt(range, limit);
      && response.Changes?
      && (Enough(response.entries, whole, limit) <==>
            || limit == 0 || Hit(v, since) || ActiveCount(range) >= limit
            || |whole| <= cut || ActiveCount(whole[..cut]) >= limit)
  {
    if !Hit(v, since) {
      MissSeesNothing(v, since);
      if limit > 0 {
        JoinedEnoughIff(Range(FullLog(bucket), since + 1, v.validFrom), v.logs, rows, limit);
      }
    }
  }

  /** What there is to return, once the feed has caught up, is the full channel log after `since`. */
  lemma WholeIsFullLog(v: CacheView, since: nat, bucket: set<LogEntry>)
    requires Agrees(v, bucket, bucket)
    ensures SeqKeyed(From(Newest(bucket), since + 1))
    ensures Answer(v, FullLog(bucket), since, 0) == Sorted(From(Newest(bucket), since + 1))
  {
    AnswerExact(v, bucket, since, 0);
  }

  // ---- a request that gets nothing

  const Gone1 := LogEntry(1, "a", "2-a", true, false)
  const Gone2 := LogEntry(2, "b", "2-b", true, false)
  const Live := LogEntry(4, "c", "1-c", false, false)

  const Store: set<LogEntry> := {Gone1, Gone2, Live}

  /** The two deletions have been pruned. */
  const Cache: CacheView := CacheView([Live], 3)

  /** Two deleted documents before a cached active one: a request since 0 for one active change gets none, although
      the cache agrees with a store that has one and the feed has caught up. */
  lemma ActiveOnlyFallsShort()
    ensures Agrees(Cache, Store, Store)
    ensures FullLog(Store) == [Gone1, Gone2, Live]
    ensures Responds(Cache, BackfilledView(Cache, [Gone1, Gone2], 0, 1, 1, 500), 0, 1, true, false,
                     Some(FullLog(Store)), [Gone1, Gone2], 500, Changes([Gone1, Gone2]))
    ensures ActiveCount([Gone1, Gone2]) == 0 && ActiveCount(FullLog(Store)) == 1
  {
    CacheAgrees();
    StoreLog();
    StoreRange();
    Counts();
    assert LastPage([Gone1, Gone2], 1, [Gone1, Gone2], 1) by {
      assert [Gone1, Gone2][..1] == [Gone1];
    }
    assert Paged([Gone1, Gone2], 1, [Gone1, Gone2]);
    CacheMisses();
  }

  lemma DocsDiffer()
    ensures Gone1.docID != Gone2.docID && Gone1.docID != Live.docID && Gone2.docID != Live.docID
  {
    assert "a"[0] != "b"[0] && "a"[0] != "c"[0] && "b"[0] != "c"[0];
  }

  lemma CacheAgrees()
    ensures Agrees(Cache, Store, Store)
  {
    assert Entries([Live]) == {Live};
  }

  lemma StoreLog()
    ensures SeqKeyed(Store) && FullLog(Store) == [Gone1, Gone2, Live]
  {
    DocsDiffer();
    var log := [Gone1, Gone2, Live];
    assert Newest(Store) == Store;
    assert Entries(log) == Store;
    NewestKeyed(Store);
    IsSorted(log, Newest(Store));
  }

  lemma StoreRange()
    ensures Range([Gone1, Gone2, Live], 1, 3) == [Gone1, Gone2]
  {
    assert [Gone1, Gone2, Live][1..] == [Gone2, Live] && [Gone2, Live][1..] == [Live] && [Live][1..] == [];
    assert Range([Live], 1, 3) == [];
    assert Range([Gone2, Live], 1, 3) == [Gone2];
  }

  lemma Counts()
    ensures ActiveCount([Gone1]) == 0 && ActiveCount([Gone1, Gone2]) == 0 && ActiveCount([Gone1, Gone2, Live]) == 1
  {
    assert [Gone1][..0] == [] && [Gone1, Gone2][..1] == [Gone1] && [Gone1, Gone2, Live][..2] == [Gone1, Gone2];
    assert ActiveCount([]) == 0;
    assert ActiveCount([Gone1]) == 0;
    assert ActiveCount([Gone1, Gone2]) == 0;
  }

  lemma CacheMisses()
    ensures !Hit(Cache, 0) && CachedAfter(Cache, 0) == [Live]
  {
    assert [Live][..0] == [];
    assert Seen([Live][..0], 0) == 0;
    assert Seen([Live], 0) == 0;
    assert [Live][0..] == [Live];
  }
}
