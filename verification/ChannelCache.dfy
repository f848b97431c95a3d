/** The per-channel cache (db/channel_cache.go): its fields and the operations that change
    them in place, each proved against ChannelCacheSpec. Log positions are scanned exactly as
    the source scans them; ages are a parameter (`tooOld`). */
module ChannelCache {
  import opened Options
  import opened LogEntries
  import opened ChannelCacheSpec
  import opened ChannelQuery
  import opened ChannelStore
  import opened CacheLimits
  import opened ChannelAnswer

  /** What a request for changes comes to. */
  datatype Response = Changes(entries: seq<LogEntry>) | Terminated | QueryFailed

  const DEFAULT_MIN_LENGTH := 50
  const DEFAULT_MAX_LENGTH := 500

  // ---- the in-place rearrangements of an ascending log

  /** Taking one entry out takes its document out. */
  lemma Removed(log: seq<LogEntry>, i: nat)
    requires Ascending(log) && OnePerDoc(log) && i < |log|
    ensures var r := log[..i] + log[i + 1..];
      && Ascending(r) && OnePerDoc(r)
      && DocIDs(r) == DocIDs(log) - {log[i].docID}
      && Entries(r) == OtherDocs(Entries(log), log[i].docID)
  {
    LogsCut(log, i);
    LogsCut(log[i..], 1);
    assert log[i..][1..] == log[i + 1..] && log[i..][..1] == [log[i]];
    LogsJoin(log[..i], log[i + 1..]);
    EntriesAppend(log[..i], log[i + 1..]);
    NoSuchDoc(log[..i], log[i].docID);
    NoSuchDoc(log[i + 1..], log[i].docID);
  }

  lemma NoSuchDoc(log: seq<LogEntry>, docID: string)
    requires docID !in DocIDs(log)
    ensures OtherDocs(Entries(log), docID) == Entries(log)
    ensures forall e :: e in Entries(log) ==> e.docID != docID
  {
  }

  /** A change of a document without an entry goes just before p. */
  lemma Inserted(log: seq<LogEntry>, p: nat, change: LogEntry)
    requires Ascending(log) && OnePerDoc(log)
    requires p <= |log| && change.docID !in DocIDs(log)
    requires p > 0 ==> log[p - 1].seqNo < change.seqNo
    requires p < |log| ==> change.seqNo < log[p].seqNo
    ensures var r := log[..p] + [change] + log[p..];
      && Ascending(r) && OnePerDoc(r)
      && Entries(r) == Upserted(Entries(log), change)
      && DocIDs(r) == DocIDs(log) + {change.docID}
  {
    InsertedOrder(log, p, change);
    InsertedEntries(log, p, change);
    NoSuchDoc(log, change.docID);
    assert !HasNewer(Entries(log), change);
  }

  lemma InsertedEntries(log: seq<LogEntry>, p: nat, change: LogEntry)
    requires p <= |log|
    ensures Entries(log[..p] + [change] + log[p..]) == Entries(log) + {change}
    ensures DocIDs(log[..p] + [change] + log[p..]) == DocIDs(log) + {change.docID}
  {
    EntriesAppend(log[..p] + [change], log[p..]);
    EntriesAppend(log[..p], [change]);
    EntriesAppend(log[..p], log[p..]);
    assert log == log[..p] + log[p..];
  }

  lemma InsertedOrder(log: seq<LogEntry>, p: nat, change: LogEntry)
    requires Ascending(log) && OnePerDoc(log)
    requires p <= |log| && change.docID !in DocIDs(log)
    requires p > 0 ==> log[p - 1].seqNo < change.seqNo
    requires p < |log| ==> change.seqNo < log[p].seqNo
    ensures Ascending(log[..p] + [change] + log[p..]) && OnePerDoc(log[..p] + [change] + log[p..])
  {
    LogsCut(log, p);
    LogsJoin(log[..p], [change]);
    LogsJoin(log[..p] + [change], log[p..]);
  }

  /** The entry of the change's document at i gives way to the change, which goes just before p. */
  lemma Moved(log: seq<LogEntry>, i: nat, p: nat, change: LogEntry)
    requires Ascending(log) && OnePerDoc(log)
    requires i < p <= |log| && log[i].docID == change.docID && log[p - 1].seqNo < change.seqNo
    requires p < |log| ==> change.seqNo < log[p].seqNo
    ensures var r := log[..i] + log[i + 1..p] + [change] + log[p..];
      && Ascending(r) && OnePerDoc(r)
      && Entries(r) == Upserted(Entries(log), change)
      && DocIDs(r) == DocIDs(log)
  {
    Removed(log, i);
    MovedSlices(log, i, p);
    var rest := log[..i] + log[i + 1..];
    Inserted(rest, p - 1, change);
    assert log[i].docID in DocIDs(log);
    NotNewer(log, i, change);
  }

  /** Where the pieces of a log are once one entry is out. */
  lemma MovedSlices(log: seq<LogEntry>, i: nat, p: nat)
    requires i < p <= |log|
    ensures var rest := log[..i] + log[i + 1..];
      && |rest| == |log| - 1
      && rest[..p - 1] == log[..i] + log[i + 1..p] && rest[p - 1..] == log[p..]
      && (p < |log| ==> rest[p - 1] == log[p])
      && (p > 1 ==> rest[p - 2] == if i < p - 1 then log[p - 1] else log[p - 2])
  {
  }

  lemma NotNewer(log: seq<LogEntry>, i: nat, change: LogEntry)
    requires OnePerDoc(log) && i < |log| && log[i].docID == change.docID && log[i].seqNo < change.seqNo
    ensures !HasNewer(Entries(log), change)
    ensures Upserted(OtherDocs(Entries(log), change.docID), change) == Upserted(Entries(log), change)
  {
    assert forall k :: 0 <= k < |log| && log[k].docID == change.docID ==> k == i;
  }

  ghost function BackfilledView(v: CacheView, rows: seq<LogEntry>, since: nat, limit: nat, cached: nat,
                                maxLength: nat): CacheView
    requires 0 < maxLength
  {
    if cached < maxLength
    then Prepended(v, rows, since + 1, ValidTo(rows, v.validFrom, limit), maxLength)
    else v
  }

  /** How a request is answered, and what it leaves in the cache. */
  ghost predicate Responds(v: CacheView, v': CacheView, since: nat, limit: nat, activeOnly: bool, terminated: bool,
                           store: Option<seq<LogEntry>>, rows: seq<LogEntry>, maxLength: nat, response: Response)
  {
    var cached := Limited(CachedAfter(v, since), if activeOnly then 0 else limit);
    if Hit(v, since) then response == Changes(cached) && v' == v
    else if terminated then response == Terminated && v' == v
    else if store.None? then response == QueryFailed && v' == v
    else
      && 0 < maxLength
      && IsFeedRows(store.value, since + 1, v.validFrom, limit, activeOnly, rows)
      && response == Changes(Joined(rows, cached, limit))
      && v' == BackfilledView(v, rows, since, limit, |cached|, maxLength)
  }

  /** A request against a store that the feed has caught up with returns exactly the first `limit` entries of
      the full channel log after `since`, and leaves the cache in agreement with the store. */
  lemma ResponseExact(v: CacheView, v': CacheView, since: nat, limit: nat, bucket: set<LogEntry>,
                      rows: seq<LogEntry>, maxLength: nat, response: Response)
    requires Agrees(v, bucket, bucket) && |v.logs| <= maxLength
    requires Responds(v, v', since, limit, false, false, Some(FullLog(bucket)), rows, maxLength, response)
    ensures SeqKeyed(From(Newest(bucket), since + 1))
    ensures response == Changes(Limited(Sorted(From(Newest(bucket), since + 1)), limit))
    ensures Agrees(v', bucket, bucket)
  {
    AnswerExact(v, bucket, since, limit);
    if !Hit(v, since) {
      MissSeesNothing(v, since);
      BackfillAgrees(v, since, limit, bucket, rows, maxLength);
    }
  }

  lemma BackfillAgrees(v: CacheView, since: nat, limit: nat, bucket: set<LogEntry>, rows: seq<LogEntry>, maxLength: nat)
    requires Agrees(v, bucket, bucket) && |v.logs| <= maxLength && 0 < maxLength && 0 < v.validFrom
    requires IsFeedRows(FullLog(bucket), since + 1, v.validFrom, limit, false, rows)
    ensures Agrees(Prepended(v, rows, since + 1, ValidTo(rows, v.validFrom, limit), maxLength), bucket, bucket)
  {
    FeedRowsCover(bucket, since + 1, v.validFrom, limit, false, rows);
    PrependAgreesIff(v, bucket, bucket, bucket, rows, since + 1, ValidTo(rows, v.validFrom, limit), maxLength);
  }

  class ChannelCache {
    var logs: seq<LogEntry>
    var validFrom: nat
    var cachedDocIDs: set<string>
    const minLength: nat
    const maxLength: nat

    ghost predicate Indexed()
      reads this
    {
      && WellFormed(View())
      && cachedDocIDs == DocIDs(logs)
      && 0 < minLength && 0 < maxLength
    }

    ghost predicate Valid()
      reads this
    {
      Indexed() && |logs| <= maxLength
    }

    function View(): CacheView
      reads this
    {
      CacheView(logs, validFrom)
    }

    constructor (validFrom: nat, minLength: nat, maxLength: nat)
      ensures Valid() && View() == CacheView([], validFrom)
      ensures this.minLength == (if minLength > 0 then minLength else DEFAULT_MIN_LENGTH)
      ensures this.maxLength == (if maxLength > 0 then maxLength else DEFAULT_MAX_LENGTH)
    {
      this.logs := [];
      this.validFrom := validFrom;
      this.cachedDocIDs := {};
      this.minLength := if minLength > 0 then minLength else DEFAULT_MIN_LENGTH;
      this.maxLength := if maxLength > 0 then maxLength else DEFAULT_MAX_LENGTH;
    }

    method AddToCache(change: LogEntry, isRemoval: bool)
      requires Valid() && Fits(logs, change)
      modifies this
      ensures Valid()
      ensures View() == Added(old(View()), if isRemoval then change.(removed := true) else change, maxLength)
      ensures change.seqNo < old(validFrom) ==> View() == old(View())
      ensures old(validFrom) <= change.seqNo ==>
        var all := Upserted(old(Entries(logs)), if isRemoval then change.(removed := true) else change);
        KeepsNewest(View(), all, old(validFrom), maxLength) && |all| == |old(DocIDs(logs)) + {change.docID}|
    {
      if WouldBeImmediatelyPruned(change) {
        return;
      }
      AddedKeeps(View(), if isRemoval then change.(removed := true) else change, maxLength);
      if !isRemoval {
        AppendChange(change);
      } else {
        AppendChange(change.(removed := true));
      }
      IsSorted(logs, Entries(logs));
      var _ := PruneCacheLength();
    }

    predicate WouldBeImmediatelyPruned(change: LogEntry)
      reads this
    {
      change.seqNo < validFrom
    }

    method AppendChange(change: LogEntry)
      requires Indexed() && Fits(logs, change) && validFrom <= change.seqNo
      modifies this
      ensures Indexed() && validFrom == old(validFrom)
      ensures Entries(logs) == Upserted(old(Entries(logs)), change)
    {
      var end := |logs| - 1;
      if end >= 0 {
        if change.seqNo <= logs[end].seqNo {
          InsertChange(change);
          return;
        }
        if change.docID in cachedDocIDs {
          ReplaceCached(change);
          return;
        }
      } else {
        AdjustFirstSeq(change);
      }
      Opened(View(), |logs|, change);
      AddedAtEnd(logs, change);
      logs := logs + [change];
      cachedDocIDs := cachedDocIDs + {change.docID};
    }

    /** Finds the entry of the change's document from the newest on, takes it out and puts the change at the end. */
    method ReplaceCached(change: LogEntry)
      requires Indexed() && Fits(logs, change) && validFrom <= change.seqNo
      requires change.docID in cachedDocIDs && logs != [] && logs[|logs| - 1].seqNo < change.seqNo
      modifies this`logs
      ensures Indexed()
      ensures Entries(logs) == Upserted(old(Entries(logs)), change)
    {
      var i := |logs| - 1;
      while logs[i].docID != change.docID
        invariant 0 <= i < |logs|
        invariant forall k :: i < k < |logs| ==> logs[k].docID != change.docID
        decreases i
      {
        i := i - 1;
      }
      Replaced(View(), i, |logs|, change);
      MovedToEnd(logs, i, change);
      logs := logs[..i] + logs[i + 1..] + [change];
    }

    method AdjustFirstSeq(change: LogEntry)
      modifies this`validFrom
      ensures validFrom == if change.seqNo < old(validFrom) then change.seqNo else old(validFrom)
    {
      if change.seqNo < validFrom {
        validFrom := change.seqNo;
      }
    }

    /** Walks the log backwards to the entry of the change's document, or to the front, noting
        on the way where the change belongs (0 until a smaller sequence has been seen). */
    method ScanBack(change: LogEntry, docIDExists: bool) returns (i: int, insertAt: nat)
      requires Ascending(logs) && (docIDExists <==> change.docID in DocIDs(logs))
      ensures -1 <= i < |logs| && insertAt <= |logs|
      ensures docIDExists <==> 0 <= i
      ensures 0 <= i ==> logs[i].docID == change.docID
      ensures 0 <= i && logs[i].seqNo < change.seqNo ==> i < insertAt
      ensures i == -1 || logs[i].seqNo < change.seqNo ==> insertAt < |logs| ==> change.seqNo <= logs[insertAt].seqNo
      ensures insertAt > 0 ==> logs[insertAt - 1].seqNo < change.seqNo
    {
      insertAt := 0;
      i := |logs| - 1;
      while i >= 0
        invariant -1 <= i < |logs| && insertAt <= |logs|
        invariant insertAt == 0 || i < insertAt - 1
        invariant insertAt > 0 ==> logs[insertAt - 1].seqNo < change.seqNo
        invariant insertAt == 0 && i + 1 < |logs| ==> change.seqNo <= logs[i + 1].seqNo
        invariant 0 < insertAt < |logs| ==> change.seqNo <= logs[insertAt].seqNo
        invariant docIDExists ==> forall k :: i < k < |logs| ==> logs[k].docID != change.docID
      {
        if insertAt == 0 && change.seqNo > logs[i].seqNo {
          insertAt := i + 1;
        }
        if docIDExists && logs[i].docID == change.docID {
          assert logs[i].docID in DocIDs(logs);
          return;
        }
        i := i - 1;
      }
    }

    /** Out-of-sequence insertion. */
    method InsertChange(change: LogEntry)
      requires Indexed() && Fits(logs, change) && validFrom <= change.seqNo
      modifies this`logs, this`cachedDocIDs
      ensures Indexed()
      ensures Entries(logs) == Upserted(old(Entries(logs)), change)
    {
      var docIDExists := change.docID in cachedDocIDs;
      var i, insertAt := ScanBack(change, docIDExists);
      if docIDExists {
        if logs[i].seqNo >= change.seqNo {
          // a later revision of this document is already cached
          Superseded(logs, i, change);
        } else if i == insertAt - 1 {
          Replaced(View(), i, insertAt, change);
          ReplacedInPlace(logs, i, change);
          logs := logs[i := change];
        } else {
          Replaced(View(), i, insertAt, change);
          logs := logs[..i] + logs[i + 1..insertAt] + [change] + logs[insertAt..];
        }
      } else {
        Opened(View(), insertAt, change);
        logs := logs[..insertAt] + [change] + logs[insertAt..];
      }
      cachedDocIDs := cachedDocIDs + {change.docID};
    }

    method PruneCacheLength() returns (pruned: nat)
      requires Indexed()
      modifies this
      ensures Valid() && View() == LengthPruned(old(View()), maxLength)
      ensures KeepsNewest(View(), old(Entries(logs)), old(validFrom), maxLength)
      ensures pruned == |old(logs)| - |logs|
    {
      ghost var v := View();
      LengthPrunedKeeps(v, maxLength);
      pruned := 0;
      if |logs| > maxLength {
        pruned := |logs| - maxLength;
        DroppedWellFormed(v, pruned);
        ForgetDocIDs(pruned);
        validFrom := logs[pruned - 1].seqNo + 1;
        logs := logs[pruned..];
        assert View() == Dropped(v, pruned);
      }
    }

    /** Takes the documents of the oldest entries out of the index. */
    method ForgetDocIDs(pruned: nat)
      requires OnePerDoc(logs) && cachedDocIDs == DocIDs(logs) && pruned <= |logs|
      modifies this`cachedDocIDs
      ensures cachedDocIDs == DocIDs(logs[pruned..])
    {
      var i := 0;
      while i < pruned
        invariant 0 <= i <= pruned && cachedDocIDs == DocIDs(logs[i..])
      {
        FirstDocGone(logs[i..]);
        assert logs[i..][1..] == logs[i + 1..];
        cachedDocIDs := cachedDocIDs - {logs[i].docID};
        i := i + 1;
      }
    }

    method PruneCacheAge(tooOld: LogEntry -> bool)
      requires Valid()
      modifies this
      ensures Valid() && View() == AgePruned(old(View()), minLength, maxLength, tooOld)
      ensures minLength >= maxLength ==> View() == old(View())
      ensures minLength < maxLength ==> exists k :: IsAged(old(View()), View(), k, minLength, tooOld)
    {
      if minLength >= maxLength {
        return;
      }
      ghost var v := View();
      ghost var pruned := AgePruned(v, minLength, maxLength, tooOld);
      AgePrunedIsAged(v, minLength, maxLength, tooOld);
      while |logs| > minLength && tooOld(logs[0])
        invariant v == View() && WellFormed(v) && cachedDocIDs == DocIDs(v.logs) && |v.logs| <= maxLength
        invariant AgePruned(v, minLength, maxLength, tooOld) == pruned
        decreases |logs|
      {
        AgeRound(v, minLength, maxLength, tooOld);
        v := CacheView(v.logs[1..], v.logs[0].seqNo + 1);
        validFrom := logs[0].seqNo + 1;
        cachedDocIDs := cachedDocIDs - {logs[0].docID};
        logs := logs[1..];
      }
    }

    /** Puts query results in front of the cached log, as far as they fit. */
    method PrependChanges(changes: seq<LogEntry>, changesValidFrom: nat, changesValidTo: nat) returns (n: nat)
      requires Valid() && IsResult(changes, changesValidFrom)
      modifies this
      ensures Valid()
      ensures View() == Prepended(old(View()), changes, changesValidFrom, changesValidTo, maxLength)
      ensures n == |logs| - |old(logs)|
    {
      PrependedWellFormed(View(), changes, changesValidFrom, changesValidTo, maxLength);
      if |changes| == 0 {
        if changesValidFrom < validFrom && changesValidTo >= validFrom {
          validFrom := changesValidFrom;
        }
        return 0;
      }
      if changesValidTo < validFrom {
        return 0;
      }
      if |logs| == 0 {
        var excess := |changes| - maxLength;
        if excess > 0 {
          logs := changes[excess..];
          validFrom := logs[0].seqNo;
        } else {
          logs := changes;
          validFrom := changesValidFrom;
        }
        cachedDocIDs := DocIDs(logs);
        return |logs|;
      }
      var capacity := maxLength - |logs|;
      if capacity <= 0 {
        return 0;
      }
      if changesValidFrom >= validFrom {
        return 0;
      }
      var entriesToPrepend, oldest := CollectFront(changes, changesValidFrom, capacity);
      EntriesAppend(entriesToPrepend, logs);
      cachedDocIDs := cachedDocIDs + DocIDs(entriesToPrepend);
      logs := entriesToPrepend + logs;
      validFrom := oldest;
      return |entriesToPrepend|;
    }

    /** The backward pass over the query results, stopping when the cache would be full. */
    method CollectFront(changes: seq<LogEntry>, changesValidFrom: nat, capacity: nat)
      returns (entriesToPrepend: seq<LogEntry>, oldest: nat)
      requires cachedDocIDs == DocIDs(logs) && OnePerDoc(changes) && capacity > 0
      ensures var eligible := Eligible(changes, View());
        if |eligible| >= capacity
        then entriesToPrepend == Newer(eligible, capacity) && oldest == entriesToPrepend[0].seqNo
        else entriesToPrepend == eligible && oldest == changesValidFrom
    {
      ghost var v := View();
      entriesToPrepend, oldest := [], changesValidFrom;
      var docIDs := cachedDocIDs;
      NothingCollected(changes, v);
      var i := |changes| - 1;
      while i >= 0
        invariant -1 <= i < |changes| && v == View()
        invariant Collected(changes, i + 1, v, entriesToPrepend, docIDs)
        invariant |entriesToPrepend| < capacity && oldest == changesValidFrom
      {
        entriesToPrepend, docIDs := CollectOne(changes, i, v, entriesToPrepend, docIDs);
        if |entriesToPrepend| >= capacity {
          oldest := changes[i].seqNo;
          CollectedEnough(changes, i, v, entriesToPrepend, docIDs);
          return;
        }
        i := i - 1;
      }
      CollectedAll(changes, v, entriesToPrepend, docIDs);
    }

    /** One round of the backward pass: takes the row unless it is too new or its document is already there. */
    method CollectOne(changes: seq<LogEntry>, i: nat, ghost v: CacheView, taken: seq<LogEntry>, docIDs: set<string>)
      returns (taken': seq<LogEntry>, docIDs': set<string>)
      requires OnePerDoc(changes) && i < |changes| && v.validFrom == validFrom
      requires Collected(changes, i + 1, v, taken, docIDs)
      ensures Collected(changes, i, v, taken', docIDs')
      ensures taken' == taken || taken' == [changes[i]] + taken
    {
      CollectStep(changes, i, v, taken, docIDs);
      var change := changes[i];
      if change.seqNo < validFrom && change.docID !in docIDs {
        return [change] + taken, docIDs + {change.docID};
      }
      return taken, docIDs;
    }

    /** The cached entries after `since`, and the sequence from which they are complete. */
    method GetCachedChanges(since: nat, limit: nat) returns (from: nat, result: seq<LogEntry>)
      ensures from == CachedFrom(View(), since)
      ensures result == Limited(CachedAfter(View(), since), limit)
    {
      if |logs| == 0 {
        return validFrom, [];
      }
      var start := |logs| - 1;
      assert logs[..|logs|] == logs;
      while start >= 0 && logs[start].seqNo > since
        invariant -1 <= start < |logs|
        invariant Seen(logs, since) == Seen(logs[..start + 1], since)
      {
        assert logs[..start + 1][..start] == logs[..start];
        start := start - 1;
      }
      start := start + 1;
      assert start == Seen(logs, since);
      if start > 0 {
        from := logs[start - 1].seqNo + 1;
      } else {
        from := validFrom;
      }
      var n := |logs| - start;
      if limit > 0 && n > limit {
        n := limit;
      }
      CutTwice(logs, start, n);
      result := logs[start..start + n];
    }

    /** Queries the store up to the start of the cached log, feeds the rows back into the cache if there is
        room, and joins them with the cached entries. */
    method Backfill(since: nat, limit: nat, activeOnly: bool, store: seq<LogEntry>, resultFromCache: seq<LogEntry>)
      returns (result: seq<LogEntry>, ghost rows: seq<LogEntry>)
      requires Valid() && Ascending(store) && OnePerDoc(store)
      modifies this
      ensures Valid()
      ensures IsFeedRows(store, since + 1, old(validFrom), limit, activeOnly, rows)
      ensures result == Joined(rows, resultFromCache, limit)
      ensures View() == BackfilledView(old(View()), rows, since, limit, |resultFromCache|, maxLength)
    {
      var startSeq, endSeq := since + 1, validFrom;
      var resultFromView := GetChangesInChannelFromQuery(store, startSeq, endSeq, limit, activeOnly);
      rows := resultFromView;
      FeedRowsResult(store, startSeq, endSeq, limit, activeOnly, rows);
      var resultValidTo := endSeq;
      if limit != 0 && |resultFromView| >= limit {
        resultValidTo := resultFromView[|resultFromView| - 1].seqNo;
      }
      if |resultFromCache| < maxLength {
        var _ := PrependChanges(resultFromView, startSeq, resultValidTo);
      }
      result := JoinResults(resultFromView, resultFromCache, limit);
    }

    /** Serves a request from the cache, or from the store (`None` if the query fails) and the cache. */
    method GetChanges(since: nat, limit: nat, activeOnly: bool, terminated: bool, store: Option<seq<LogEntry>>)
      returns (response: Response, ghost rows: seq<LogEntry>)
      requires Valid() && (store.Some? ==> Ascending(store.value) && OnePerDoc(store.value))
      modifies this
      ensures Valid()
      ensures Responds(old(View()), View(), since, limit, activeOnly, terminated, store, rows, maxLength, response)
      ensures response.Terminated? ==> terminated
      ensures response.QueryFailed? ==> !terminated && store.None?
      ensures !response.Changes? ==> View() == old(View()) && since + 1 < old(validFrom)
      ensures since + 1 < old(validFrom) && (terminated || store.None?) ==> !response.Changes?
    {
      rows := [];
      var cacheLimit := if activeOnly then 0 else limit;
      var cacheValidFrom, resultFromCache := GetCachedChanges(since, cacheLimit);
      if cacheValidFrom <= since + 1 {
        return Changes(resultFromCache), rows;
      }
      // another request may have filled the cache while this one waited for the view lock
      cacheValidFrom, resultFromCache := GetCachedChanges(since, cacheLimit);
      if cacheValidFrom <= since + 1 {
        return Changes(resultFromCache), rows;
      }
      if terminated {
        return Terminated, rows;
      }
      if store.None? {
        return QueryFailed, rows;
      }
      MissSeesNothing(View(), since);
      var result;
      result, rows := Backfill(since, limit, activeOnly, store.value, resultFromCache);
      return Changes(result), rows;
    }

    static method JoinResults(resultFromView: seq<LogEntry>, cached: seq<LogEntry>, limit: nat)
      returns (result: seq<LogEntry>)
      ensures result == Joined(resultFromView, cached, limit)
    {
      var resultFromCache := cached;
      result := resultFromView;
      var room := limit - |result|;
      if (limit == 0 || room > 0) && |resultFromCache| > 0 {
        if |result| > 0 && resultFromCache[0].seqNo == result[|result| - 1].seqNo {
          resultFromCache := resultFromCache[1..];
        }
        var n := |resultFromCache|;
        if limit > 0 && room > 0 && room < n {
          n := room;
        }
        result := result + resultFromCache[..n];
      }
    }
  }

  // ---- the same rearrangements on a whole view

  lemma Replaced(v: CacheView, i: nat, p: nat, change: LogEntry)
    requires WellFormed(v) && v.validFrom <= change.seqNo && Fits(v.logs, change)
    requires i < p <= |v.logs| && v.logs[i].docID == change.docID && v.logs[p - 1].seqNo < change.seqNo
    requires p < |v.logs| ==> change.seqNo <= v.logs[p].seqNo
    ensures var r := v.logs[..i] + v.logs[i + 1..p] + [change] + v.logs[p..];
      && WellFormed(CacheView(r, v.validFrom))
      && Entries(r) == Upserted(Entries(v.logs), change)
      && DocIDs(r) == DocIDs(v.logs) == DocIDs(v.logs) + {change.docID}
  {
    var log := v.logs;
    if p < |log| {
      assert log[p] in log;
    }
    assert log[i].docID in DocIDs(log);
    Moved(log, i, p, change);
    var r := log[..i] + log[i + 1..p] + [change] + log[p..];
    forall e | e in r
      ensures v.validFrom <= e.seqNo
    {
      assert e in Entries(r);
    }
  }

  lemma MovedToEnd(log: seq<LogEntry>, i: nat, change: LogEntry)
    requires i < |log|
    ensures log[..i] + log[i + 1..|log|] + [change] + log[|log|..] == log[..i] + log[i + 1..] + [change]
  {
  }

  lemma AddedAtEnd(log: seq<LogEntry>, change: LogEntry)
    ensures log[..|log|] + [change] + log[|log|..] == log + [change]
  {
  }

  lemma ReplacedInPlace(log: seq<LogEntry>, i: nat, change: LogEntry)
    requires i < |log|
    ensures log[..i] + log[i + 1..i + 1] + [change] + log[i + 1..] == log[i := change]
  {
  }

  lemma Opened(v: CacheView, p: nat, change: LogEntry)
    requires WellFormed(v) && v.validFrom <= change.seqNo && Fits(v.logs, change)
    requires p <= |v.logs| && change.docID !in DocIDs(v.logs)
    requires p > 0 ==> v.logs[p - 1].seqNo < change.seqNo
    requires p < |v.logs| ==> change.seqNo <= v.logs[p].seqNo
    ensures var r := v.logs[..p] + [change] + v.logs[p..];
      && WellFormed(CacheView(r, v.validFrom))
      && Entries(r) == Upserted(Entries(v.logs), change)
      && DocIDs(r) == DocIDs(v.logs) + {change.docID}
  {
    var log := v.logs;
    if p < |log| {
      assert log[p] in log && log[p].docID in DocIDs(log);
    }
    Inserted(log, p, change);
    var r := log[..p] + [change] + log[p..];
    forall e | e in r
      ensures v.validFrom <= e.seqNo
    {
      assert e in Entries(r);
    }
  }

  lemma Superseded(log: seq<LogEntry>, i: nat, change: LogEntry)
    requires i < |log| && log[i].docID == change.docID && change.seqNo <= log[i].seqNo
    ensures Upserted(Entries(log), change) == Entries(log)
    ensures DocIDs(log) == DocIDs(log) + {change.docID}
  {
    assert log[i] in Entries(log) && log[i].docID in DocIDs(log);
  }

  lemma EligibleStep(rows: seq<LogEntry>, i: nat, v: CacheView)
    requires OnePerDoc(rows) && i < |rows|
    ensures Eligible(rows[i..], v) ==
      (if Admits(v, rows[i]) then [rows[i]] else []) + Eligible(rows[i + 1..], v)
    ensures rows[i].docID !in DocIDs(Eligible(rows[i + 1..], v))
  {
    assert rows[i..][1..] == rows[i + 1..];
    EligibleEntries(rows[i + 1..], v);
  }

  /** The backward pass has taken what is eligible of the rows from i on. */
  ghost predicate Collected(rows: seq<LogEntry>, i: nat, v: CacheView, taken: seq<LogEntry>, docIDs: set<string>) {
    i <= |rows| && taken == Eligible(rows[i..], v) && docIDs == DocIDs(v.logs) + DocIDs(taken)
  }

  /** One round of the backward pass. */
  lemma CollectStep(rows: seq<LogEntry>, i: nat, v: CacheView, taken: seq<LogEntry>, docIDs: set<string>)
    requires OnePerDoc(rows) && i < |rows| && Collected(rows, i + 1, v, taken, docIDs)
    ensures if rows[i].seqNo < v.validFrom && rows[i].docID !in docIDs
            then Collected(rows, i, v, [rows[i]] + taken, docIDs + {rows[i].docID})
            else Collected(rows, i, v, taken, docIDs)
  {
    EligibleStep(rows, i, v);
    EntriesAppend([rows[i]], taken);
    assert [] + taken == taken;
  }

  lemma NothingCollected(rows: seq<LogEntry>, v: CacheView)
    ensures Collected(rows, |rows|, v, [], DocIDs(v.logs))
  {
    assert rows[|rows|..] == [];
  }

  lemma CollectedAll(rows: seq<LogEntry>, v: CacheView, taken: seq<LogEntry>, docIDs: set<string>)
    requires Collected(rows, 0, v, taken, docIDs)
    ensures taken == Eligible(rows, v)
  {
    assert rows[0..] == rows;
  }

  /** What has been collected is the newest part of all that is eligible. */
  lemma CollectedEnough(rows: seq<LogEntry>, i: nat, v: CacheView, taken: seq<LogEntry>, docIDs: set<string>)
    requires Collected(rows, i, v, taken, docIDs)
    ensures |taken| <= |Eligible(rows, v)| && taken == Newer(Eligible(rows, v), |taken|)
  {
    EligibleJoin(rows[..i], rows[i..], v);
    assert rows == rows[..i] + rows[i..];
  }

  lemma FeedRowsResult(log: seq<LogEntry>, start: nat, end: nat, limit: nat, activeOnly: bool, rows: seq<LogEntry>)
    requires Ascending(log) && OnePerDoc(log) && IsFeedRows(log, start, end, limit, activeOnly, rows)
    ensures IsResult(rows, start)
  {
    RangeLog(log, start, end);
    RangeRows(log, start, end);
    FeedRowsPrefix(log, start, end, limit, activeOnly, rows);
    LogsCut(Range(log, start, end), |rows|);
    assert rows == Range(log, start, end)[..|rows|];
    assert forall e :: e in rows ==> e in Range(log, start, end);
  }

  lemma CutTwice(logs: seq<LogEntry>, start: nat, n: nat)
    requires start + n <= |logs|
    ensures logs[start..start + n] == logs[start..][..n]
  {
  }

  /** One round of an age-based prune. */
  lemma AgeRound(v: CacheView, minLength: nat, maxLength: nat, tooOld: LogEntry -> bool)
    requires WellFormed(v) && minLength < maxLength && |v.logs| > minLength && tooOld(v.logs[0])
    ensures var v' := CacheView(v.logs[1..], v.logs[0].seqNo + 1);
      && WellFormed(v') && DocIDs(v'.logs) == DocIDs(v.logs) - {v.logs[0].docID}
      && AgePruned(v', minLength, maxLength, tooOld) == AgePruned(v, minLength, maxLength, tooOld)
  {
    AgeStep(v, minLength, maxLength, tooOld);
    DroppedWellFormed(v, 1);
    FirstDocGone(v.logs);
  }

  lemma AgeStep(v: CacheView, minLength: nat, maxLength: nat, tooOld: LogEntry -> bool)
    requires minLength < maxLength && |v.logs| > minLength && tooOld(v.logs[0])
    ensures AgePruned(v, minLength, maxLength, tooOld) == AgePruned(Dropped(v, 1), minLength, maxLength, tooOld)
  {
    var k := AgedCount(v.logs[1..], minLength, tooOld);
    assert v.logs[1..][k..] == v.logs[k + 1..];
    assert k > 0 ==> v.logs[1..][k - 1] == v.logs[k];
  }

  lemma FirstDocGone(logs: seq<LogEntry>)
    requires OnePerDoc(logs) && logs != []
    ensures DocIDs(logs[1..]) == DocIDs(logs) - {logs[0].docID}
  {
    assert logs == [logs[0]] + logs[1..];
    EntriesAppend([logs[0]], logs[1..]);
  }
}
