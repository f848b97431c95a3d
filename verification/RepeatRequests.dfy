/** What a request that has to query leaves for the next one: whether the same request again is served from the cache
    (db/channel_cache.go:269-402, 527-613). */
module RepeatRequests {
  import opened Options
  import opened LogEntries
  import opened ChannelCacheSpec
  import opened ChannelQuery
  import opened ChannelStore
  import opened ChannelAnswer
  import opened ChannelCache
  import opened ChannelCacheRuns

  /** A request is served from the cache exactly if the cache is complete from just after `since`. */
  lemma HitIff(v: CacheView, since: nat)
    requires WellFormed(v)
    ensures Hit(v, since) <==> v.validFrom <= since + 1
  {
    if Hit(v, since) {
      HitReaches(v, since);
    }
  }

  /** The rows that could go in front of the cached log. */
  ghost function OlderRows(rows: seq<LogEntry>, v: CacheView): set<LogEntry> {
    set e | e in rows && e.seqNo < v.validFrom && e.docID !in DocIDs(v.logs)
  }

  /** The cached part of the answer leaves room, the query was not cut off before it reached the cached log, and all of
      what it found fits in front of that. */
  ghost predicate StretchFits(v: CacheView, rows: seq<LogEntry>, since: nat, limit: nat, cached: nat, maxLength: nat) {
    && cached < maxLength
    && (limit == 0 || |rows| < limit || v.validFrom <= rows[|rows| - 1].seqNo)
    && (|| rows == []
        || (v.logs == [] && |rows| <= maxLength)
        || (v.logs != [] && OlderRowsFit(v, rows, since, maxLength)))
  }

  /** The last place in the cache is taken for a row only if nothing can be missing before it. */
  ghost predicate OlderRowsFit(v: CacheView, rows: seq<LogEntry>, since: nat, maxLength: nat) {
    || |v.logs| + |OlderRows(rows, v)| < maxLength
    || (&& |v.logs| < maxLength && |v.logs| + |OlderRows(rows, v)| == maxLength
        && exists e :: e in OlderRows(rows, v) && e.seqNo == since + 1)
  }

  /** The same request again is served from the cache if and only if the stretch it asked for fits. */
  lemma RepeatIsHitIff(v: CacheView, v': CacheView, since: nat, limit: nat, activeOnly: bool, store: seq<LogEntry>,
                       rows: seq<LogEntry>, maxLength: nat, response: Response)
    requires WellFormed(v) && |v.logs| <= maxLength && v.validFrom > since + 1
    requires Ascending(store) && OnePerDoc(store)
    requires Responds(v, v', since, limit, activeOnly, false, Some(store), rows, maxLength, response)
    ensures v'.validFrom <= since + 1 <==>
      StretchFits(v, rows, since, limit, if activeOnly || limit == 0 || |v.logs| <= limit then |v.logs| else limit,
                  maxLength)
  {
    HitIff(v, since);
    MissSeesNothing(v, since);
    BackfillOpens(v, since, limit, activeOnly, store, rows, maxLength,
                  |Limited(v.logs, if activeOnly then 0 else limit)|);
  }

  lemma BackfillOpens(v: CacheView, since: nat, limit: nat, activeOnly: bool, store: seq<LogEntry>,
                      rows: seq<LogEntry>, maxLength: nat, cached: nat)
    requires |v.logs| <= maxLength && 0 < maxLength && since + 1 < v.validFrom
    requires Ascending(store) && OnePerDoc(store)
    requires IsFeedRows(store, since + 1, v.validFrom, limit, activeOnly, rows)
    ensures BackfilledView(v, rows, since, limit, cached, maxLength).validFrom <= since + 1 <==>
      StretchFits(v, rows, since, limit, cached, maxLength)
  {
    if cached < maxLength {
      FeedRowsPrefix(store, since + 1, v.validFrom, limit, activeOnly, rows);
      RowsAreResult(store, since + 1, v.validFrom, rows);
      var to := ValidTo(rows, v.validFrom, limit);
      PrependOpens(v, rows, since + 1, to, maxLength);
      OpensAllIff(v, rows, since, to, maxLength);
    }
  }

  /** Whether a prepend opens all of what it covers. */
  lemma OpensAllIff(v: CacheView, rows: seq<LogEntry>, since: nat, to: nat, maxLength: nat)
    requires |v.logs| <= maxLength && 0 < maxLength && since + 1 < v.validFrom && IsResult(rows, since + 1)
    ensures OpenedFrom(v, rows, since + 1, to, maxLength) <= since + 1 <==>
      && v.validFrom <= to
      && (|| rows == []
          || (v.logs == [] && |rows| <= maxLength)
          || (v.logs != [] && OlderRowsFit(v, rows, since, maxLength)))
  {
    Spread(rows, since + 1);
    var eligible := Eligible(rows, v);
    EligibleLog(rows, v);
    OlderRowsAre(rows, v);
    assert forall e :: e in eligible ==> e in Entries(eligible);
    Spread(eligible, since + 1);
    FirstIs(eligible, since + 1);
  }

  lemma RowsAreResult(store: seq<LogEntry>, start: nat, end: nat, rows: seq<LogEntry>)
    requires Ascending(store) && OnePerDoc(store) && rows <= Range(store, start, end)
    ensures IsResult(rows, start)
  {
    var range := Range(store, start, end);
    RangeLog(store, start, end);
    LogsCut(range, |rows|);
    RangeRows(store, start, end);
    assert rows == range[..|rows|];
    assert forall e :: e in rows ==> e in range;
  }

  lemma OlderRowsAre(rows: seq<LogEntry>, v: CacheView)
    requires Ascending(rows) && OnePerDoc(rows)
    ensures Entries(Eligible(rows, v)) == OlderRows(rows, v)
    ensures |OlderRows(rows, v)| == |Eligible(rows, v)|
  {
    EligibleEntries(rows, v);
    EligibleLog(rows, v);
    assert Entries(Eligible(rows, v)) == OlderRows(rows, v);
    AscendingDistinct(Eligible(rows, v));
  }

  /** Sequences in a log are at least one apart. */
  lemma {:induction false} Spread(log: seq<LogEntry>, start: nat)
    requires Ascending(log) && forall e :: e in log ==> start <= e.seqNo
    ensures forall i :: 0 <= i < |log| ==> start + i <= log[i].seqNo
  {
    if log != [] {
      var n := |log| - 1;
      Spread(log[..n], start);
      assert n > 0 ==> log[..n][n - 1].seqNo < log[n].seqNo;
      assert log[n] in log;
    }
  }

  lemma FirstIs(log: seq<LogEntry>, start: nat)
    requires Ascending(log) && forall e :: e in log ==> start <= e.seqNo
    ensures (exists e :: e in Entries(log) && e.seqNo == start) <==> log != [] && log[0].seqNo == start
  {
    if log != [] {
      assert log[0] in Entries(log);
      assert forall e :: e in log ==> log[0].seqNo <= e.seqNo;
    }
  }

  /** A request of a run with no step between its parts is a request of the class. */
  lemma RunRequestIsServed(c: Config, q: Query, store: seq<LogEntry>)
    requires q.Answered? && 0 < c.maxLength && !Hit(q.seen, q.since)
    requires IsFeedRows(store, q.since + 1, q.seen.validFrom, q.limit, q.activeOnly, q.rows)
    ensures Responds(q.seen, Finished(c, q.seen, q), q.since, q.limit, q.activeOnly, false, Some(store), q.rows,
                     c.maxLength, Changes(q.Response()))
  {
  }
}
