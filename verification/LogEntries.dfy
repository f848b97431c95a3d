/** Log entries and ordered channel logs (channels/change_log.go, db/channel_cache.go).

    A channel log is a strictly ascending sequence of entries. Such a sequence is determined
    by its set of entries, so the specifications below describe logs as sorted sets. */
module LogEntries {

  /** A change as one channel sees it. `removed` marks a removal from that channel. */
  datatype LogEntry = LogEntry(seqNo: nat, docID: string, revID: string, deleted: bool, removed: bool) {
    predicate IsActive() {
      !deleted && !removed
    }
  }

  predicate Ascending(log: seq<LogEntry>) {
    forall i, j :: 0 <= i < j < |log| ==> log[i].seqNo < log[j].seqNo
  }

  predicate OnePerDoc(log: seq<LogEntry>) {
    forall i, j :: 0 <= i < j < |log| ==> log[i].docID != log[j].docID
  }

  function Entries(log: seq<LogEntry>): set<LogEntry> {
    set e | e in log
  }

  function DocIDs(log: seq<LogEntry>): set<string> {
    set e | e in log :: e.docID
  }

  /** One sequence number belongs to one change. */
  ghost predicate SeqKeyed(entries: set<LogEntry>) {
    forall x, y :: x in entries && y in entries && x.seqNo == y.seqNo ==> x == y
  }

  ghost predicate IsNewest(e: LogEntry, entries: set<LogEntry>) {
    e in entries && forall x :: x in entries && x.docID == e.docID ==> x.seqNo <= e.seqNo
  }

  /** The newest entry of every document. */
  ghost function Newest(entries: set<LogEntry>): set<LogEntry> {
    set e | e in entries && IsNewest(e, entries)
  }

  /** The entries with sequence numbers in [start, end]. */
  function Within(entries: set<LogEntry>, start: nat, end: nat): set<LogEntry> {
    set e | e in entries && start <= e.seqNo <= end
  }

  function From(entries: set<LogEntry>, start: nat): set<LogEntry> {
    set e | e in entries && start <= e.seqNo
  }

  /** `limit == 0` means unlimited. */
  function Limited<T>(s: seq<T>, limit: nat): seq<T> {
    if limit == 0 || |s| <= limit then s else s[..limit]
  }

  /** A limit of 0 is none. */
  lemma LimitedIs<T>(s: seq<T>, limit: nat)
    ensures Limited(s, limit) <= s
    ensures limit == 0 || |s| <= limit ==> Limited(s, limit) == s
    ensures 0 < limit < |s| ==> |Limited(s, limit)| == limit
  {
  }

  lemma MaxExists(entries: set<LogEntry>)
    requires entries != {}
    ensures exists m :: m in entries && forall x :: x in entries ==> x.seqNo <= m.seqNo
    decreases |entries|
  {
    var e :| e in entries;
    if entries != {e} {
      var rest := entries - {e};
      assert entries == rest + {e};
      MaxExists(rest);
      var m :| m in rest && forall x :: x in rest ==> x.seqNo <= m.seqNo;
      var top := if m.seqNo >= e.seqNo then m else e;
      assert forall x :: x in entries ==> x == e || x in rest;
      assert top in entries && forall x :: x in entries ==> x.seqNo <= top.seqNo;
    }
  }

  ghost function Latest(entries: set<LogEntry>): (m: LogEntry)
    requires entries != {}
    ensures m in entries && forall x :: x in entries ==> x.seqNo <= m.seqNo
  {
    MaxExists(entries);
    var m :| m in entries && forall x :: x in entries ==> x.seqNo <= m.seqNo;
    m
  }

  lemma AppendLatest(rest: seq<LogEntry>, m: LogEntry, entries: set<LogEntry>)
    requires SeqKeyed(entries) && m in entries && forall x :: x in entries ==> x.seqNo <= m.seqNo
    requires Ascending(rest) && Entries(rest) == entries - {m}
    ensures Ascending(rest + [m]) && Entries(rest + [m]) == entries
  {
    EntriesAppend(rest, [m]);
    forall i | 0 <= i < |rest|
      ensures rest[i].seqNo < m.seqNo
    {
      assert rest[i] in Entries(rest);
    }
  }

  lemma EntriesAppend(a: seq<LogEntry>, b: seq<LogEntry>)
    ensures Entries(a + b) == Entries(a) + Entries(b)
    ensures DocIDs(a + b) == DocIDs(a) + DocIDs(b)
  {
    assert forall e :: e in a + b <==> e in a || e in b;
  }

  /** Two logs, the first all below the second and of other documents, form one log. */
  lemma LogsJoin(a: seq<LogEntry>, b: seq<LogEntry>)
    requires Ascending(a) && Ascending(b)
    requires a != [] && b != [] ==> a[|a| - 1].seqNo < b[0].seqNo
    ensures Ascending(a + b)
    ensures OnePerDoc(a) && OnePerDoc(b) && DocIDs(a) !! DocIDs(b) ==> OnePerDoc(a + b)
  {
    forall i, j | 0 <= i < |a| && 0 <= j < |b|
      ensures a[i].seqNo < b[j].seqNo
      ensures DocIDs(a) !! DocIDs(b) ==> a[i].docID != b[j].docID
    {
      assert a[i].seqNo <= a[|a| - 1].seqNo && b[0].seqNo <= b[j].seqNo;
      assert a[i].docID in DocIDs(a) && b[j].docID in DocIDs(b);
    }
  }

  /** A stretch of a log is a log, and the stretches on either side of a cut share no document. */
  lemma LogsCut(log: seq<LogEntry>, k: nat)
    requires Ascending(log) && k <= |log|
    ensures Ascending(log[..k]) && Ascending(log[k..])
    ensures OnePerDoc(log) ==> OnePerDoc(log[..k]) && OnePerDoc(log[k..]) && DocIDs(log[..k]) !! DocIDs(log[k..])
    ensures Entries(log) == Entries(log[..k]) + Entries(log[k..])
    ensures DocIDs(log) == DocIDs(log[..k]) + DocIDs(log[k..])
  {
    assert log == log[..k] + log[k..];
    EntriesAppend(log[..k], log[k..]);
  }

  /** What lies after position k of a log is what lies after that sequence. */
  lemma SuffixEntries(log: seq<LogEntry>, k: nat)
    requires Ascending(log) && 0 < k <= |log|
    ensures forall e :: e in log[k..] <==> e in log && log[k - 1].seqNo < e.seqNo
  {
    forall e
      ensures e in log[k..] <==> e in log && log[k - 1].seqNo < e.seqNo
    {
      if e in log {
        var i :| 0 <= i < |log| && log[i] == e;
        assert i >= k ==> e == log[k..][i - k];
        assert i < k ==> e.seqNo <= log[k - 1].seqNo;
      }
    }
  }

  /** The strictly ascending arrangement of a set of entries. */
  ghost function Sorted(entries: set<LogEntry>): (log: seq<LogEntry>)
    requires SeqKeyed(entries)
    ensures Ascending(log) && Entries(log) == entries && |log| == |entries|
    decreases |entries|
  {
    if entries == {} then []
    else
      var m := Latest(entries);
      var rest := Sorted(entries - {m});
      AppendLatest(rest, m, entries);
      rest + [m]
  }

  lemma AscendingDistinct(log: seq<LogEntry>)
    requires Ascending(log)
    ensures SeqKeyed(Entries(log))
    ensures |Entries(log)| == |log|
  {
    if log != [] {
      var n := |log| - 1;
      AscendingDistinct(log[..n]);
      assert log == log[..n] + [log[n]];
      assert Entries(log) == Entries(log[..n]) + {log[n]};
    }
  }

  /** A strictly ascending log is determined by its entries. */
  lemma {:induction false} AscendingUnique(a: seq<LogEntry>, b: seq<LogEntry>)
    requires Ascending(a) && Ascending(b) && Entries(a) == Entries(b)
    ensures a == b
    decreases |a|
  {
    EmptyIff(a);
    EmptyIff(b);
    if a != [] {
      LastIsLatest(a);
      LastIsLatest(b);
      var m, n := |a| - 1, |b| - 1;
      assert a[m] in Entries(b) && b[n] in Entries(a);
      AscendingUnique(a[..m], b[..n]);
    }
  }

  lemma EmptyIff(log: seq<LogEntry>)
    ensures log == [] <==> Entries(log) == {}
  {
    if log != [] {
      assert log[0] in Entries(log);
    }
  }

  lemma LastIsLatest(log: seq<LogEntry>)
    requires Ascending(log) && log != []
    ensures var m := |log| - 1;
      && log[m] in Entries(log)
      && (forall x :: x in Entries(log) ==> x == log[m] || x.seqNo < log[m].seqNo)
      && Ascending(log[..m]) && Entries(log[..m]) == Entries(log) - {log[m]}
      && log == log[..m] + [log[m]]
  {
    var m := |log| - 1;
    EntriesAppend(log[..m], [log[m]]);
    assert log == log[..m] + [log[m]];
  }

  /** How a strictly ascending log is recognised as the sorted form of a set. */
  lemma IsSorted(log: seq<LogEntry>, entries: set<LogEntry>)
    requires Ascending(log) && Entries(log) == entries
    ensures SeqKeyed(entries) && log == Sorted(entries)
  {
    AscendingDistinct(log);
    AscendingUnique(log, Sorted(entries));
  }

  lemma SubsetSize<T>(a: set<T>, b: set<T>)
    requires a <= b
    ensures |a| <= |b|
  {
    assert b == a + (b - a);
  }

  /** Every document with an entry has a newest one. */
  lemma NewestExists(e: LogEntry, entries: set<LogEntry>) returns (n: LogEntry)
    requires e in entries
    ensures n in Newest(entries) && n.docID == e.docID && e.seqNo <= n.seqNo
  {
    var same := set x | x in entries && x.docID == e.docID;
    assert e in same;
    n := Latest(same);
    assert n in same;
    forall x | x in entries && x.docID == n.docID
      ensures x.seqNo <= n.seqNo
    {
      assert x in same;
    }
  }
}
