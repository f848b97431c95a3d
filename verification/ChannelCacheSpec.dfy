/** What each operation of a channel cache does to its contents, on values
    (db/channel_cache.go). The class in ChannelCache.dfy is proved to do exactly this. */
module ChannelCacheSpec {
  import opened LogEntries

  /** The visible contents of a channel cache: the cached log, and the first sequence for
      which it is complete. */
  datatype CacheView = CacheView(logs: seq<LogEntry>, validFrom: nat)

  ghost predicate WellFormed(v: CacheView) {
    && Ascending(v.logs)
    && OnePerDoc(v.logs)
    && forall e :: e in v.logs ==> v.validFrom <= e.seqNo
  }

  /** Two changes share a sequence number only if they are of the same document. */
  ghost predicate Fits(logs: seq<LogEntry>, change: LogEntry) {
    forall e :: e in logs && e.seqNo == change.seqNo ==> e.docID == change.docID
  }

  ghost predicate HasNewer(entries: set<LogEntry>, change: LogEntry) {
    exists x :: x in entries && x.docID == change.docID && change.seqNo <= x.seqNo
  }

  function OtherDocs(entries: set<LogEntry>, docID: string): set<LogEntry> {
    set x | x in entries && x.docID != docID
  }

  /** A change replaces every older entry of its document, and yields to a newer one. */
  ghost function Upserted(entries: set<LogEntry>, change: LogEntry): set<LogEntry> {
    if HasNewer(entries, change) then entries
    else OtherDocs(entries, change.docID) + {change}
  }

  lemma UpsertedKeyed(entries: set<LogEntry>, change: LogEntry)
    requires SeqKeyed(entries)
    requires forall e :: e in entries && e.seqNo == change.seqNo ==> e.docID == change.docID
    ensures SeqKeyed(Upserted(entries, change))
  {
  }

  /** Dropping the k oldest entries raises validFrom just past them. */
  function Dropped(v: CacheView, k: nat): CacheView
    requires k <= |v.logs|
  {
    if k == 0 then v else CacheView(v.logs[k..], v.logs[k - 1].seqNo + 1)
  }

  function LengthPruned(v: CacheView, maxLength: nat): CacheView {
    if |v.logs| > maxLength then Dropped(v, |v.logs| - maxLength) else v
  }

  ghost function Added(v: CacheView, change: LogEntry, maxLength: nat): CacheView
    requires WellFormed(v) && Fits(v.logs, change)
  {
    if change.seqNo < v.validFrom then v
    else
      AscendingDistinct(v.logs);
      UpsertedKeyed(Entries(v.logs), change);
      LengthPruned(CacheView(Sorted(Upserted(Entries(v.logs), change)), v.validFrom), maxLength)
  }

  /** How many of the oldest entries an age-based prune removes. */
  function AgedCount(logs: seq<LogEntry>, minLength: nat, tooOld: LogEntry -> bool): (k: nat)
    ensures k <= |logs|
    ensures minLength <= |logs| ==> minLength <= |logs| - k
  {
    if |logs| > minLength && tooOld(logs[0]) then 1 + AgedCount(logs[1..], minLength, tooOld) else 0
  }

  function AgePruned(v: CacheView, minLength: nat, maxLength: nat, tooOld: LogEntry -> bool): CacheView {
    if minLength >= maxLength then v else Dropped(v, AgedCount(v.logs, minLength, tooOld))
  }

  /** The query rows that may go in front of the cached log: older than it, and not stale
      versions of documents it already holds. */
  function Eligible(rows: seq<LogEntry>, v: CacheView): (r: seq<LogEntry>) {
    if rows == [] then []
    else
      var rest := Eligible(rows[1..], v);
      if rows[0].seqNo < v.validFrom && rows[0].docID !in DocIDs(v.logs) then [rows[0]] + rest else rest
  }

  /** The newest n elements. */
  function Newer<T>(s: seq<T>, n: nat): (r: seq<T>) {
    if n <= |s| then s[|s| - n..] else s
  }

  /** `rows` is complete for the sequences in [from, to]. */
  function Prepended(v: CacheView, rows: seq<LogEntry>, from: nat, to: nat, maxLength: nat): CacheView
    requires maxLength > 0
  {
    if rows == [] then
      if from < v.validFrom <= to then v.(validFrom := from) else v
    else if to < v.validFrom then v
    else if v.logs == [] then
      if |rows| > maxLength then
        var kept := Newer(rows, maxLength);
        CacheView(kept, kept[0].seqNo)
      else CacheView(rows, from)
    else if |v.logs| >= maxLength || from >= v.validFrom then v
    else
      var capacity := maxLength - |v.logs|;
      var eligible := Eligible(rows, v);
      if |eligible| >= capacity then
        var kept := Newer(eligible, capacity);
        CacheView(kept + v.logs, kept[0].seqNo)
      else CacheView(eligible + v.logs, from)
  }

  /** From which sequence on the cache answers once `rows` are prepended, decided before that is done: a query that
      does not reach the cached log, or finds no room, opens nothing; otherwise it opens the stretch it covers, or
      as much of it as fits. */
  function OpenedFrom(v: CacheView, rows: seq<LogEntry>, from: nat, to: nat, maxLength: nat): nat
    requires maxLength > 0 && |v.logs| <= maxLength
  {
    var fitting := if v.logs == [] then rows else Eligible(rows, v);
    var room := if v.logs == [] then maxLength else maxLength - |v.logs|;
    if to < v.validFrom || (rows != [] && v.logs != [] && room <= 0) then v.validFrom
    else if from >= v.validFrom && (rows == [] || v.logs != []) then v.validFrom
    else if |fitting| > room || (v.logs != [] && 0 < |fitting| == room) then fitting[|fitting| - room].seqNo
    else from
  }

  lemma PrependOpens(v: CacheView, rows: seq<LogEntry>, from: nat, to: nat, maxLength: nat)
    requires maxLength > 0 && |v.logs| <= maxLength
    ensures Prepended(v, rows, from, to, maxLength).validFrom == OpenedFrom(v, rows, from, to, maxLength)
  {
  }

  // ---- each operation keeps a cache well formed

  lemma DroppedWellFormed(v: CacheView, k: nat)
    requires WellFormed(v) && k <= |v.logs|
    ensures WellFormed(Dropped(v, k))
  {
    LogsCut(v.logs, k);
    if k > 0 {
      forall e | e in v.logs[k..]
        ensures v.logs[k - 1].seqNo < e.seqNo
      {
        var i :| k <= i < |v.logs| && v.logs[i] == e;
      }
    }
  }

  lemma {:induction false} EligibleJoin(a: seq<LogEntry>, b: seq<LogEntry>, v: CacheView)
    ensures Eligible(a + b, v) == Eligible(a, v) + Eligible(b, v)
  {
    if a == [] {
      assert a + b == b;
    } else {
      assert (a + b)[1..] == a[1..] + b;
      EligibleJoin(a[1..], b, v);
    }
  }

  ghost predicate Admits(v: CacheView, e: LogEntry) {
    e.seqNo < v.validFrom && e.docID !in DocIDs(v.logs)
  }

  lemma {:induction false} EligibleEntries(rows: seq<LogEntry>, v: CacheView)
    ensures Entries(Eligible(rows, v)) == set e | e in rows && Admits(v, e)
    ensures DocIDs(Eligible(rows, v)) <= DocIDs(rows)
    ensures DocIDs(Eligible(rows, v)) !! DocIDs(v.logs)
  {
    if rows != [] {
      EligibleEntries(rows[1..], v);
      assert rows == [rows[0]] + rows[1..];
      EntriesAppend([rows[0]], rows[1..]);
      EntriesAppend([rows[0]], Eligible(rows[1..], v));
    }
  }

  lemma {:induction false} EligibleLog(rows: seq<LogEntry>, v: CacheView)
    requires Ascending(rows) && OnePerDoc(rows)
    ensures Ascending(Eligible(rows, v)) && OnePerDoc(Eligible(rows, v))
  {
    if rows != [] {
      LogsCut(rows, 1);
      EligibleLog(rows[1..], v);
      EligibleEntries(rows[1..], v);
      var rest := Eligible(rows[1..], v);
      if rest != [] {
        assert rest[0] in Entries(rest);
        var k :| 1 <= k < |rows| && rows[k] == rest[0];
      }
      assert rows[..1] == [rows[0]];
      LogsJoin([rows[0]], rest);
    }
  }

  /** `rows` has the shape of a query result: ascending, one row per document, nothing below `from`. */
  ghost predicate IsResult(rows: seq<LogEntry>, from: nat) {
    Ascending(rows) && OnePerDoc(rows) && forall e :: e in rows ==> from <= e.seqNo
  }

  lemma NewerIsResult(rows: seq<LogEntry>, n: nat)
    requires Ascending(rows) && OnePerDoc(rows) && 0 < n <= |rows|
    ensures IsResult(Newer(rows, n), Newer(rows, n)[0].seqNo)
  {
    LogsCut(rows, |rows| - n);
  }

  /** Rows below the cached log, of other documents, form a cache with it. */
  lemma FrontJoined(front: seq<LogEntry>, v: CacheView, from: nat)
    requires WellFormed(v) && IsResult(front, from) && from <= v.validFrom
    requires forall e :: e in front ==> e.seqNo < v.validFrom
    requires DocIDs(front) !! DocIDs(v.logs)
    ensures WellFormed(CacheView(front + v.logs, from))
  {
    if front != [] && v.logs != [] {
      assert front[|front| - 1] in front && v.logs[0] in v.logs;
    }
    LogsJoin(front, v.logs);
  }

  lemma PrependedWellFormed(v: CacheView, rows: seq<LogEntry>, from: nat, to: nat, maxLength: nat)
    requires WellFormed(v) && IsResult(rows, from) && 0 < maxLength && |v.logs| <= maxLength
    ensures var r := Prepended(v, rows, from, to, maxLength); WellFormed(r) && |r.logs| <= maxLength
  {
    if rows == [] || to < v.validFrom {
    } else if v.logs == [] {
      if |rows| > maxLength {
        NewerIsResult(rows, maxLength);
      }
    } else if |v.logs| < maxLength && from < v.validFrom {
      var capacity := maxLength - |v.logs|;
      var eligible := Eligible(rows, v);
      EligibleLog(rows, v);
      EligibleEntries(rows, v);
      assert forall e :: e in eligible ==> e in Entries(eligible);
      if |eligible| >= capacity {
        FrontKept(eligible, capacity, v);
      } else {
        FrontJoined(eligible, v, from);
      }
    }
  }

  lemma FrontKept(eligible: seq<LogEntry>, capacity: nat, v: CacheView)
    requires WellFormed(v) && Ascending(eligible) && OnePerDoc(eligible) && 0 < capacity <= |eligible|
    requires forall e :: e in eligible ==> e.seqNo < v.validFrom
    requires DocIDs(eligible) !! DocIDs(v.logs)
    ensures var kept := Newer(eligible, capacity); WellFormed(CacheView(kept + v.logs, kept[0].seqNo))
  {
    var kept := Newer(eligible, capacity);
    NewerIsResult(eligible, capacity);
    LogsCut(eligible, |eligible| - capacity);
    assert kept[0] in eligible;
    FrontJoined(kept, v, kept[0].seqNo);
  }
}
