/** A run that loses a change. Documents a, c and d are cached and a and c age out; a query reads the store; then b,
    whose sequence had been skipped, is written and delivered. The cache ignores it as older than what it answers
    for, and the rows that are prepended after that do not have it, but lower validFrom past it. */
module LateChangeLost {
  import opened Options
  import opened LogEntries
  import opened ChannelCacheSpec
  import opened ChannelQuery
  import opened ChannelStore
  import opened ChannelAnswer
  import opened ChannelCacheRuns

  const LossConfig := Config(0, 1, 500)

  const A := LogEntry(2, "a", "1-a", false, false)
  const B := LogEntry(3, "b", "1-b", false, false)
  const C := LogEntry(4, "c", "1-c", false, false)
  const D := LogEntry(5, "d", "1-d", false, false)

  const Asked := Asking(0, 0, false, CacheView([D], 5), {A, C, D})
  const Read := Answered(0, 0, false, CacheView([D], 5), {A, C, D}, {A, C, D}, [A, C, D])

  const BeforeRead := World({A, C, D}, {A, C, D}, CacheView([D], 5), Some(Asked))
  const AfterRead := World({A, C, D}, {A, C, D}, CacheView([D], 5), Some(Read))

  function LossStep(k: nat): Step {
    match k
    case 0 => Write(A)
    case 1 => Arrive(A)
    case 2 => Write(C)
    case 3 => Arrive(C)
    case 4 => Write(D)
    case 5 => Arrive(D)
    case 6 => PruneAge(Old)
    case 7 => StartQuery(0, 0, false)
    case 8 => ReadStore([A, C, D])
    case 9 => Write(B)
    case 10 => Arrive(B)
    case _ => FinishQuery
  }

  function Old(e: LogEntry): bool {
    e.seqNo < 5
  }

  ghost function LossWorld(k: nat): World {
    match k
    case 0 => World({}, {}, CacheView([], 1), None)
    case 1 => World({A}, {}, CacheView([], 1), None)
    case 2 => World({A}, {A}, CacheView([A], 1), None)
    case 3 => World({A, C}, {A}, CacheView([A], 1), None)
    case 4 => World({A, C}, {A, C}, CacheView([A, C], 1), None)
    case 5 => World({A, C, D}, {A, C}, CacheView([A, C], 1), None)
    case 6 => World({A, C, D}, {A, C, D}, CacheView([A, C, D], 1), None)
    case 7 => World({A, C, D}, {A, C, D}, CacheView([D], 5), None)
    case 8 => BeforeRead
    case 9 => AfterRead
    case 10 => World({A, C, D, B}, {A, C, D}, CacheView([D], 5), Some(Read))
    case 11 => World({A, C, D, B}, {A, C, D, B}, CacheView([D], 5), Some(Read))
    case _ => World({A, C, D, B}, {A, C, D, B}, CacheView([A, C, D], 1), None)
  }

  ghost function LossRun(): seq<World> {
    seq(13, k requires 0 <= k < 13 => LossWorld(k))
  }

  ghost function LossSteps(): seq<Step> {
    seq(12, k requires 0 <= k < 12 => LossStep(k))
  }

  /** Everything written has been delivered, and the cache answers for b without having it: a request since 0 would
      not be told of it. Only the last step of the run is to blame. */
  lemma LateChangeIsLost()
    ensures IsRun(LossConfig, LossRun(), LossSteps())
    ensures HarmlessUpTo(LossConfig, LossRun(), LossSteps(), 11) && !Harmless(LossConfig, LossRun()[11], FinishQuery)
    ensures var w := LossRun()[12];
      && w.arrived == w.bucket && B in Newest(w.bucket)
      && w.cache.validFrom <= B.seqNo && B !in w.cache.logs
  {
    LossIsRun();
    LossIsHarmless();
    LostInTheEnd();
    var run, steps := LossRun(), LossSteps();
    AlwaysAgrees(LossConfig, run, steps, 11);
    StepInvIff(LossConfig, run[11], steps[11], run[12]);
  }

  lemma LossIsRun()
    ensures IsRun(LossConfig, LossRun(), LossSteps())
  {
    forall k | 0 <= k < 12
      ensures Next(LossConfig, LossRun()[k], LossSteps()[k], LossRun()[k + 1])
    {
      LossNext(k);
    }
  }

  lemma LossIsHarmless()
    ensures HarmlessUpTo(LossConfig, LossRun(), LossSteps(), 11)
  {
    forall k | 0 <= k < 11
      ensures Harmless(LossConfig, LossRun()[k], LossSteps()[k])
    {
      assert !LossStep(k).FinishQuery?;
    }
  }

  lemma LostInTheEnd()
    ensures var w := LossWorld(12);
      && w.arrived == w.bucket && B in Newest(w.bucket)
      && w.cache.validFrom <= B.seqNo && B !in w.cache.logs
      && !Agrees(w.cache, w.bucket, w.arrived)
  {
    var w := LossWorld(12);
    assert IsNewest(B, w.bucket);
    assert B in Newest(w.bucket) && B !in [A, C, D];
    assert !Complete(w.cache, w.bucket, w.arrived);
  }

  lemma LossNext(k: nat)
    requires k < 12
    ensures Next(LossConfig, LossWorld(k), LossStep(k), LossWorld(k + 1))
  {
    if k in {0, 2, 4, 9} {
      Writes(k);
    } else if k in {1, 3, 5} {
      Arrives(k);
    } else if k == 6 {
      Pruned();
    } else if k == 7 {
      Starts();
    } else if k == 8 {
      Rows();
    } else if k == 10 {
      Ignored();
    } else {
      assert k == 11;
      Finish();
    }
  }

  lemma Writes(k: nat)
    requires k in {0, 2, 4, 9}
    ensures Next(LossConfig, LossWorld(k), LossStep(k), LossWorld(k + 1))
  {
    var w, e, w' := LossWorld(k), LossStep(k).change, LossWorld(k + 1);
    assert forall x :: x in w.bucket ==> x.seqNo != e.seqNo;
    assert w'.bucket == w.bucket + {e};
  }

  lemma Starts()
    ensures Next(LossConfig, LossWorld(7), StartQuery(0, 0, false), LossWorld(8))
  {
    Misses();
  }

  lemma DocsDiffer()
    ensures A.docID != C.docID && A.docID != D.docID && C.docID != D.docID
    ensures B.docID != A.docID && B.docID != C.docID && B.docID != D.docID
  {
    assert "a"[0] != "b"[0] && "a"[0] != "c"[0] && "a"[0] != "d"[0];
    assert "b"[0] != "c"[0] && "b"[0] != "d"[0] && "c"[0] != "d"[0];
  }

  lemma Arrives(k: nat)
    requires k in {1, 3, 5}
    ensures Next(LossConfig, LossWorld(k), LossStep(k), LossWorld(k + 1))
  {
    DocsDiffer();
    if k == 1 {
      ArrivesInOrder(LossWorld(1), A, LossWorld(2));
    } else if k == 3 {
      ArrivesInOrder(LossWorld(3), C, LossWorld(4));
    } else {
      ArrivesInOrder(LossWorld(5), D, LossWorld(6));
    }
  }

  lemma ArrivesInOrder(w: World, e: LogEntry, w': World)
    requires WellFormed(w.cache) && |w.cache.logs| < 500 && w.cache.validFrom <= e.seqNo && e in w.bucket && 0 < e.seqNo
    requires forall x :: x in w.cache.logs ==> x.docID != e.docID && x.seqNo < e.seqNo
    requires w' == w.(arrived := w.arrived + {e}, cache := CacheView(w.cache.logs + [e], w.cache.validFrom))
    ensures Next(LossConfig, w, Arrive(e), w')
  {
    AddedInOrder(w.cache, e, 500);
  }

  lemma Ignored()
    ensures Next(LossConfig, LossWorld(10), Arrive(B), LossWorld(11))
  {
    var w := LossWorld(10);
    assert WellFormed(w.cache) && Fits(w.cache.logs, B);
    assert Added(w.cache, B, 500) == w.cache;
  }

  lemma AddedInOrder(v: CacheView, e: LogEntry, maxLength: nat)
    requires WellFormed(v) && |v.logs| < maxLength && v.validFrom <= e.seqNo
    requires forall x :: x in v.logs ==> x.docID != e.docID && x.seqNo < e.seqNo
    ensures Fits(v.logs, e) && Added(v, e, maxLength) == CacheView(v.logs + [e], v.validFrom)
  {
    SortedAppend(v.logs, e);
  }

  lemma SortedAppend(logs: seq<LogEntry>, e: LogEntry)
    requires Ascending(logs) && forall x :: x in logs ==> x.docID != e.docID && x.seqNo < e.seqNo
    ensures SeqKeyed(Upserted(Entries(logs), e)) && Sorted(Upserted(Entries(logs), e)) == logs + [e]
  {
    UpsertedNew(logs, e);
    EntriesAppend(logs, [e]);
    assert logs != [] ==> logs[|logs| - 1] in logs;
    LogsJoin(logs, [e]);
    IsSorted(logs + [e], Entries(logs) + {e});
  }

  lemma UpsertedNew(logs: seq<LogEntry>, e: LogEntry)
    requires forall x :: x in logs ==> x.docID != e.docID
    ensures Upserted(Entries(logs), e) == Entries(logs) + {e}
  {
    assert forall x :: x in Entries(logs) ==> x in logs;
  }

  lemma Pruned()
    ensures Next(LossConfig, LossWorld(6), PruneAge(Old), LossWorld(7))
  {
    assert [A, C, D][1..] == [C, D] && [C, D][1..] == [D];
    assert AgedCount([D], 1, Old) == 0;
    assert AgedCount([C, D], 1, Old) == 1;
    assert AgedCount([A, C, D], 1, Old) == 2;
    assert [A, C, D][2..] == [D];
  }

  lemma Rows()
    ensures Next(LossConfig, BeforeRead, ReadStore([A, C, D]), AfterRead)
  {
    StoreLog();
    RowsRead(BeforeRead, [A, C, D], AfterRead);
  }

  lemma RowsRead(w: World, rows: seq<LogEntry>, w': World)
    requires w.query == Some(Asked) && SeqKeyed(w.bucket) && rows == FullLog(w.bucket)
    requires forall e :: e in rows ==> InBounds(e, 1, 5)
    requires w' == w.(query := Some(WithRows(Asked, w.bucket, rows)))
    ensures Next(LossConfig, w, ReadStore(rows), w')
  {
    WholeRange(rows, 1, 5);
  }

  lemma StoreLog()
    ensures SeqKeyed({A, C, D}) && FullLog({A, C, D}) == [A, C, D]
  {
    DocsDiffer();
    var bucket := {A, C, D};
    assert Entries([A, C, D]) == bucket;
    FullLogIs(bucket, [A, C, D]);
  }

  lemma FullLogIs(bucket: set<LogEntry>, log: seq<LogEntry>)
    requires SeqKeyed(bucket) && Ascending(log) && Entries(log) == bucket
    requires forall x, y :: x in bucket && y in bucket && x.docID == y.docID ==> x == y
    ensures FullLog(bucket) == log
  {
    assert Newest(bucket) == bucket;
    NewestKeyed(bucket);
    IsSorted(log, Newest(bucket));
  }

  lemma {:induction false} WholeRange(log: seq<LogEntry>, start: nat, end: nat)
    requires forall e :: e in log ==> InBounds(e, start, end)
    ensures Range(log, start, end) == log
  {
    if log != [] {
      assert log[0] in log;
      WholeRange(log[1..], start, end);
    }
  }

  lemma Finish()
    ensures Next(LossConfig, LossWorld(11), FinishQuery, LossWorld(12))
  {
    var v := CacheView([D], 5);
    Misses();
    EligibleRows(v);
    assert [A, C] + [D] == [A, C, D];
    assert Prepended(v, [A, C, D], 1, 5, 500) == CacheView([A, C, D], 1);
  }

  lemma Misses()
    ensures !Hit(CacheView([D], 5), 0) && CachedAfter(CacheView([D], 5), 0) == [D]
  {
    assert [D][..0] == [];
    assert Seen([D][..0], 0) == 0;
    assert Seen([D], 0) == 0;
    assert [D][0..] == [D];
  }

  lemma EligibleRows(v: CacheView)
    requires v == CacheView([D], 5)
    ensures Eligible([A, C, D], v) == [A, C]
  {
    assert [A, C, D][1..] == [C, D] && [C, D][1..] == [D] && [D][1..] == [];
    assert DocIDs([D]) == {"d"};
    assert Eligible([D], v) == [];
    assert Eligible([C, D], v) == [C];
  }
}
