/** How much a channel cache keeps (db/channel_cache.go:227-265), told from what it held before. */
module CacheLimits {
  import opened LogEntries
  import opened ChannelCacheSpec
  import opened ChannelStore

  /** Of `all`, the cache holds as many as there is room for. They are the newest. It answers from where it did if
      nothing is gone, and from just past the newest one gone otherwise. */
  ghost predicate KeepsNewest(v: CacheView, all: set<LogEntry>, validFrom: nat, maxLength: nat) {
    var kept := Entries(v.logs);
    && Ascending(v.logs) && kept <= all
    && |v.logs| == (if |all| <= maxLength then |all| else maxLength)
    && (forall e, k :: e in all - kept && k in kept ==> e.seqNo < k.seqNo)
    && (|all| <= maxLength ==> v.validFrom == validFrom)
    && (|all| > maxLength ==> exists e :: IsNewestOf(e, all - kept) && v.validFrom == e.seqNo + 1)
  }

  ghost predicate IsNewestOf(e: LogEntry, entries: set<LogEntry>) {
    e in entries && forall d :: d in entries ==> d.seqNo <= e.seqNo
  }

  lemma LengthPrunedKeeps(v: CacheView, maxLength: nat)
    requires Ascending(v.logs)
    ensures KeepsNewest(LengthPruned(v, maxLength), Entries(v.logs), v.validFrom, maxLength)
  {
    EntryCount(v.logs);
    if |v.logs| > maxLength {
      DroppedKeeps(v, |v.logs| - maxLength);
    } else {
      AllKept(v, maxLength);
    }
  }

  lemma EntryCount(logs: seq<LogEntry>)
    requires Ascending(logs)
    ensures |Entries(logs)| == |logs|
  {
    AscendingDistinct(logs);
  }

  lemma AllKept(v: CacheView, maxLength: nat)
    requires Ascending(v.logs) && |Entries(v.logs)| == |v.logs| <= maxLength
    ensures KeepsNewest(v, Entries(v.logs), v.validFrom, maxLength)
  {
    assert Entries(v.logs) - Entries(v.logs) == {};
  }

  lemma DroppedKeeps(v: CacheView, k: nat)
    requires Ascending(v.logs) && 0 < k <= |v.logs| && |Entries(v.logs)| == |v.logs|
    ensures KeepsNewest(Dropped(v, k), Entries(v.logs), v.validFrom, |v.logs| - k)
  {
    LogsCut(v.logs, k);
    SuffixIsNewer(v.logs, k);
    assert IsNewestOf(v.logs[k - 1], Entries(v.logs) - Entries(v.logs[k..]));
  }

  lemma SuffixIsNewer(logs: seq<LogEntry>, k: nat)
    requires Ascending(logs) && 0 < k <= |logs|
    ensures logs[k - 1] in Entries(logs)
    ensures Entries(logs[k..]) == From(Entries(logs), logs[k - 1].seqNo + 1)
  {
    SuffixEntries(logs, k);
    assert forall e :: e in Entries(logs[k..]) <==> e in logs[k..];
  }

  /** A change that the cache answers for takes the place of older changes of its document, and of what is then there
      the newest are kept: one entry for each document, as far as there is room. */
  lemma AddedKeeps(v: CacheView, change: LogEntry, maxLength: nat)
    requires WellFormed(v) && Fits(v.logs, change) && v.validFrom <= change.seqNo
    ensures KeepsNewest(Added(v, change, maxLength), Upserted(Entries(v.logs), change), v.validFrom, maxLength)
    ensures |Upserted(Entries(v.logs), change)| == |DocIDs(v.logs) + {change.docID}|
  {
    UpsertWellFormed(v, change);
    LengthPrunedKeeps(CacheView(Sorted(Upserted(Entries(v.logs), change)), v.validFrom), maxLength);
    UpsertedCount(v.logs, change);
  }

  function DocsOf(entries: set<LogEntry>): set<string> {
    set e | e in entries :: e.docID
  }

  lemma UpsertedCount(logs: seq<LogEntry>, change: LogEntry)
    requires Ascending(logs) && OnePerDoc(logs)
    ensures |Upserted(Entries(logs), change)| == |DocIDs(logs) + {change.docID}|
  {
    DistinctIsOnePerDoc(logs);
    DocCount(Upserted(Entries(logs), change));
    UpsertedDocs(Entries(logs), change);
    assert DocsOf(Entries(logs)) == DocIDs(logs);
  }

  lemma UpsertedDocs(entries: set<LogEntry>, change: LogEntry)
    ensures DocsOf(Upserted(entries, change)) == DocsOf(entries) + {change.docID}
  {
  }

  lemma {:induction false} DocCount(entries: set<LogEntry>)
    requires DistinctDocs(entries)
    ensures |DocsOf(entries)| == |entries|
  {
    if entries != {} {
      var e :| e in entries;
      DocCount(entries - {e});
      assert entries == entries - {e} + {e};
      assert DocsOf(entries) == DocsOf(entries - {e}) + {e.docID};
      assert e.docID !in DocsOf(entries - {e});
    }
  }

  // ---- age

  /** The k oldest entries are gone, each of them too old, and it stopped at one that is not or at the minimum. */
  ghost predicate IsAged(v: CacheView, v': CacheView, k: nat, minLength: nat, tooOld: LogEntry -> bool) {
    && k <= |v.logs| && v'.logs == v.logs[k..]
    && (forall i :: 0 <= i < k ==> tooOld(v.logs[i]))
    && (k > 0 ==> minLength <= |v'.logs|)
    && (|v'.logs| > minLength ==> !tooOld(v'.logs[0]))
    && v'.validFrom == if k == 0 then v.validFrom else v.logs[k - 1].seqNo + 1
  }

  lemma AgePrunedIsAged(v: CacheView, minLength: nat, maxLength: nat, tooOld: LogEntry -> bool)
    requires minLength < maxLength
    ensures IsAged(v, AgePruned(v, minLength, maxLength, tooOld), AgedCount(v.logs, minLength, tooOld), minLength,
                   tooOld)
  {
    var k := AgedCount(v.logs, minLength, tooOld);
    forall i | 0 <= i < k
      ensures tooOld(v.logs[i])
    {
      AgedIsOld(v.logs, minLength, tooOld, i);
    }
    StopsAt(v.logs, minLength, tooOld);
  }

  lemma {:induction false} AgedIsOld(logs: seq<LogEntry>, minLength: nat, tooOld: LogEntry -> bool, i: nat)
    requires i < AgedCount(logs, minLength, tooOld)
    ensures tooOld(logs[i])
  {
    if i > 0 {
      AgedIsOld(logs[1..], minLength, tooOld, i - 1);
    }
  }

  lemma {:induction false} StopsAt(logs: seq<LogEntry>, minLength: nat, tooOld: LogEntry -> bool)
    ensures var k := AgedCount(logs, minLength, tooOld);
      && (k > 0 ==> minLength <= |logs| - k)
      && (|logs| - k > minLength ==> !tooOld(logs[k]))
  {
    if |logs| > minLength && tooOld(logs[0]) {
      StopsAt(logs[1..], minLength, tooOld);
    }
  }
}
