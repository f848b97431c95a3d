/** The channel query and the paging loop over it (db/changes_view.go, db/query.go). The store is
    the full channel log: the newest entry of every document in the channel, in ascending order. */
module ChannelQuery {
  import opened LogEntries

  /** An end of 0 means no end. */
  predicate InBounds(e: LogEntry, start: nat, end: nat) {
    start <= e.seqNo && (end == 0 || e.seqNo <= end)
  }

  /** The rows of the log in bounds. */
  function Range(log: seq<LogEntry>, start: nat, end: nat): seq<LogEntry> {
    if log == [] then []
    else if InBounds(log[0], start, end) then [log[0]] + Range(log[1..], start, end)
    else Range(log[1..], start, end)
  }

  lemma {:induction false} RangeRows(log: seq<LogEntry>, start: nat, end: nat)
    ensures forall e :: e in Range(log, start, end) <==>
      e in log && start <= e.seqNo && (end == 0 || e.seqNo <= end)
  {
    if log != [] {
      RangeRows(log[1..], start, end);
      assert log == [log[0]] + log[1..];
    }
  }

  function QueryChannels(log: seq<LogEntry>, start: nat, end: nat, limit: nat): seq<LogEntry> {
    Limited(Range(log, start, end), limit)
  }

  function ActiveCount(rows: seq<LogEntry>): (n: nat)
    ensures n <= |rows|
  {
    if rows == [] then 0
    else ActiveCount(rows[..|rows| - 1]) + if rows[|rows| - 1].IsActive() then 1 else 0
  }

  /** Neither a deletion nor a removal from the channel counts. */
  lemma ActiveCountOne(e: LogEntry)
    ensures ActiveCount([e]) == if e.deleted || e.removed then 0 else 1
  {
    assert [e][..0] == [];
    assert ActiveCount([e][..0]) == 0;
  }

  /** What page-by-page reading returns: a gap-free prefix of the range that either is the whole
      range or holds `limit` active rows, and that without its last page would do neither. */
  ghost predicate Paged(range: seq<LogEntry>, limit: nat, r: seq<LogEntry>) {
    && r <= range
    && (r == range || (limit > 0 && ActiveCount(r) >= limit))
    && (limit > 0 && r != [] ==> exists k :: LastPage(range, limit, r, k))
  }

  ghost predicate LastPage(range: seq<LogEntry>, limit: nat, r: seq<LogEntry>, k: nat) {
    |r| - limit <= k < |r| <= |range| && ActiveCount(range[..k]) < limit
  }

  /** The rows a channel query made for the changes feed may return. */
  ghost predicate IsFeedRows(log: seq<LogEntry>, start: nat, end: nat, limit: nat, activeOnly: bool,
                             rows: seq<LogEntry>)
  {
    if activeOnly then Paged(Range(log, start, end), limit, rows) else rows == QueryChannels(log, start, end, limit)
  }

  lemma {:induction false} RangeLog(log: seq<LogEntry>, start: nat, end: nat)
    requires Ascending(log)
    ensures Ascending(Range(log, start, end))
    ensures OnePerDoc(log) ==> OnePerDoc(Range(log, start, end))
    ensures DocIDs(Range(log, start, end)) <= DocIDs(log)
  {
    if log != [] {
      LogsCut(log, 1);
      RangeLog(log[1..], start, end);
      var rest := Range(log[1..], start, end);
      RangeRows(log[1..], start, end);
      assert log[..1] == [log[0]];
      if rest != [] {
        assert rest[0] in log[1..];
      }
      LogsJoin([log[0]], rest);
      EntriesAppend([log[0]], rest);
    }
  }

  lemma {:induction false} ActiveCountJoin(a: seq<LogEntry>, b: seq<LogEntry>)
    ensures ActiveCount(a + b) == ActiveCount(a) + ActiveCount(b)
  {
    if b == [] {
      assert a + b == a;
    } else {
      var n := |b| - 1;
      assert (a + b)[..|a + b| - 1] == a + b[..n];
      ActiveCountJoin(a, b[..n]);
    }
  }

  /** Restarting just after the k-th row gives the rows from k on. */
  lemma RangeAdvances(log: seq<LogEntry>, start: nat, end: nat, k: nat)
    requires Ascending(log) && 0 < k <= |Range(log, start, end)|
    ensures Range(log, Range(log, start, end)[k - 1].seqNo + 1, end) == Range(log, start, end)[k..]
  {
    var range := Range(log, start, end);
    RangeLog(log, start, end);
    RangeLog(log, range[k - 1].seqNo + 1, end);
    LogsCut(range, k);
    RestOfRange(log, start, end, k);
    AscendingUnique(Range(log, range[k - 1].seqNo + 1, end), range[k..]);
  }

  lemma RestOfRange(log: seq<LogEntry>, start: nat, end: nat, k: nat)
    requires Ascending(Range(log, start, end)) && 0 < k <= |Range(log, start, end)|
    ensures Entries(Range(log, Range(log, start, end)[k - 1].seqNo + 1, end)) == Entries(Range(log, start, end)[k..])
  {
    var range := Range(log, start, end);
    RangeRows(log, start, end);
    RangeRows(log, range[k - 1].seqNo + 1, end);
    assert range[k - 1] in range;
    SuffixEntries(range, k);
  }

  /** Reads one page of rows, counting the active ones. */
  method ReadPage(before: seq<LogEntry>, page: seq<LogEntry>, activeOnly: bool)
    returns (entries: seq<LogEntry>, activeRows: nat, highSeq: nat)
    ensures entries == before + page
    ensures activeRows == if activeOnly then ActiveCount(page) else 0
    ensures page != [] ==> highSeq == page[|page| - 1].seqNo
  {
    entries, activeRows, highSeq := before, 0, 0;
    var rowCount := 0;
    while rowCount < |page|
      invariant 0 <= rowCount <= |page|
      invariant entries == before + page[..rowCount]
      invariant activeRows == if activeOnly then ActiveCount(page[..rowCount]) else 0
      invariant rowCount > 0 ==> highSeq == page[rowCount - 1].seqNo
    {
      var entry := page[rowCount];
      assert page[..rowCount + 1][..rowCount] == page[..rowCount];
      rowCount := rowCount + 1;
      if activeOnly {
        if entry.IsActive() {
          activeRows := activeRows + 1;
        }
      }
      entries := entries + [entry];
      highSeq := entry.seqNo;
    }
    assert page[..|page|] == page;
  }

  method GetChangesInChannelFromQuery(log: seq<LogEntry>, start: nat, end: nat, limit: nat, activeOnly: bool)
    returns (entries: seq<LogEntry>)
    requires Ascending(log)
    ensures IsFeedRows(log, start, end, limit, activeOnly, entries)
  {
    if activeOnly {
      entries := PageThrough(log, start, end, limit);
    } else {
      // one iteration is enough: the limit of the query itself suffices
      var page := QueryChannels(log, start, end, limit);
      var activeRows, highSeq;
      entries, activeRows, highSeq := ReadPage([], page, false);
    }
  }

  /** Queries and reads the page from `start`. `range` is all that is left to read. */
  method NextPage(log: seq<LogEntry>, start: nat, end: nat, limit: nat, ghost range: seq<LogEntry>)
    returns (page: seq<LogEntry>, activeRows: nat, highSeq: nat)
    requires Ascending(log) && range == Range(log, start, end)
    ensures page == Limited(range, limit) && activeRows == ActiveCount(page)
    ensures page != [] ==> Range(log, highSeq + 1, end) == range[|page|..]
    ensures page != [] && 0 < end <= highSeq ==> |page| == |range|
  {
    page := QueryChannels(log, start, end, limit);
    var rows;
    rows, activeRows, highSeq := ReadPage([], page, true);
    if page != [] {
      RangeAdvances(log, start, end, |page|);
      if 0 < end <= highSeq {
        NothingPast(log, highSeq + 1, end);
      }
    }
  }

  /** The active-only loop: re-queries from just past the last row until it has `limit` active rows. */
  method PageThrough(log: seq<LogEntry>, start: nat, end: nat, limit: nat) returns (entries: seq<LogEntry>)
    requires Ascending(log)
    ensures Paged(Range(log, start, end), limit, entries)
  {
    ghost var range := Range(log, start, end);
    entries := [];
    var activeEntryCount: nat := 0;
    var startSeq: nat := start;
    var done := false;
    while !done
      invariant if done then Paged(range, limit, entries)
                else Paging(range, entries, limit, activeEntryCount) && Range(log, startSeq, end) == range[|entries|..]
      decreases !done, |range| - |entries|
    {
      entries, activeEntryCount, startSeq, done :=
        AddPage(log, startSeq, end, limit, entries, activeEntryCount, range);
    }
  }

  /** One round of the loop; `done` says whether to leave it. */
  method AddPage(log: seq<LogEntry>, startSeq: nat, end: nat, limit: nat, entries: seq<LogEntry>, activeEntryCount: nat,
                 ghost range: seq<LogEntry>)
    returns (entries': seq<LogEntry>, activeEntryCount': nat, startSeq': nat, done: bool)
    requires Ascending(log) && Paging(range, entries, limit, activeEntryCount)
    requires Range(log, startSeq, end) == range[|entries|..]
    ensures done ==> Paged(range, limit, entries')
    ensures !done ==> Paging(range, entries', limit, activeEntryCount') && |entries| < |entries'|
    ensures !done ==> Range(log, startSeq', end) == range[|entries'|..]
  {
    var page, activeRows, highSeq := NextPage(log, startSeq, end, limit, range[|entries|..]);
    PageStep(range, entries, limit, activeEntryCount, page, activeRows);
    if |page| == 0 {
      return entries, activeEntryCount, startSeq, true;
    }
    entries', activeEntryCount', startSeq' := entries + page, activeEntryCount + activeRows, highSeq + 1;
    done := activeEntryCount' >= limit || limit == 0 || (end > 0 && highSeq >= end);
  }

  /** The loop has read `entries` and still lacks active rows. */
  ghost predicate Paging(range: seq<LogEntry>, entries: seq<LogEntry>, limit: nat, activeRows: nat) {
    && entries <= range && activeRows == ActiveCount(entries)
    && (entries != [] ==> activeRows < limit && exists k :: LastPage(range, limit, entries, k))
  }

  lemma PageStep(range: seq<LogEntry>, entries: seq<LogEntry>, limit: nat, activeRows: nat, page: seq<LogEntry>,
                 more: nat)
    requires Paging(range, entries, limit, activeRows)
    requires page == Limited(range[|entries|..], limit) && more == ActiveCount(page)
    ensures page == [] ==> Paged(range, limit, entries)
    ensures page != [] ==> |entries + page| <= |range| && range[|entries|..][|page|..] == range[|entries + page|..]
    ensures page != [] && (activeRows + more >= limit || limit == 0 || |page| == |range| - |entries|) ==>
              Paged(range, limit, entries + page)
    ensures page != [] && 0 < limit && activeRows + more < limit ==>
      Paging(range, entries + page, limit, activeRows + more)
  {
    if |entries| < |range| {
      ExtendPage(range, entries, limit);
      SameRest(range, |entries|, |page|);
    } else {
      assert entries == range;
    }
  }

  lemma SameRest<T>(s: seq<T>, m: nat, n: nat)
    requires m + n <= |s|
    ensures s[m..][n..] == s[m + n..]
  {
  }

  /** Reading one more page after a prefix that still lacks active rows. */
  lemma ExtendPage(range: seq<LogEntry>, before: seq<LogEntry>, limit: nat)
    requires before <= range && |before| < |range|
    requires limit > 0 ==> ActiveCount(before) < limit
    ensures var page := Limited(range[|before|..], limit);
      && before + page <= range
      && ActiveCount(before + page) == ActiveCount(before) + ActiveCount(page)
      && (limit == 0 ==> before + page == range)
      && (limit > 0 ==> LastPage(range, limit, before + page, |before|))
  {
    var page := Limited(range[|before|..], limit);
    ActiveCountJoin(before, page);
    PageExtends(range, before, limit);
  }

  lemma PageExtends<T>(range: seq<T>, before: seq<T>, limit: nat)
    requires before <= range && |before| < |range|
    ensures var page := Limited(range[|before|..], limit);
      && before + page <= range && range[..|before|] == before
      && page != [] && (limit == 0 ==> before + page == range) && (limit > 0 ==> |page| <= limit)
  {
    assert range == before + range[|before|..];
  }

  lemma NothingPast(log: seq<LogEntry>, start: nat, end: nat)
    requires 0 < end < start
    ensures Range(log, start, end) == []
  {
    RangeRows(log, start, end);
    if Range(log, start, end) != [] {
      assert Range(log, start, end)[0] in Range(log, start, end);
    }
  }
}
