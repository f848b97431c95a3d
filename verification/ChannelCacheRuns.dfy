/** Every run of a channel cache: changes are written to the store and delivered to the cache in any
    order, the cache is pruned, and channel queries are made and prepended while all this goes on.
    A query in flight holds the view lock (db/channel_cache.go:338-384), so there is at most one. */
module ChannelCacheRuns {
  import opened Options
  import opened LogEntries
  import opened ChannelCacheSpec
  import opened ChannelQuery
  import opened ChannelStore
  import opened ChannelAnswer

  datatype Config = Config(initialSequence: nat, minLength: nat, maxLength: nat)

  /** A request that has to query: first it has only read the cache, then it also has its rows from the store.
      `known` is what had arrived when it read the cache. */
  datatype Query =
    | Asking(since: nat, limit: nat, activeOnly: bool, seen: CacheView, known: set<LogEntry>)
    | Answered(since: nat, limit: nat, activeOnly: bool, seen: CacheView, known: set<LogEntry>,
               snapshot: set<LogEntry>, rows: seq<LogEntry>)
  {
    function CachedEntries(): seq<LogEntry> {
      Limited(CachedAfter(seen, since), if activeOnly then 0 else limit)
    }

    /** Up to which sequence the rows are complete. */
    function RowsValidTo(): nat
      requires Answered?
    {
      ValidTo(rows, seen.validFrom, limit)
    }

    function Response(): seq<LogEntry>
      requires Answered?
    {
      Joined(rows, CachedEntries(), limit)
    }
  }

  datatype World = World(bucket: set<LogEntry>, arrived: set<LogEntry>, cache: CacheView, query: Option<Query>)

  datatype Step =
    | Write(change: LogEntry)
    | Arrive(change: LogEntry)
    | PruneAge(tooOld: LogEntry -> bool)
    | StartQuery(since: nat, limit: nat, activeOnly: bool)
    | ReadStore(rows: seq<LogEntry>)
    | FinishQuery

  ghost predicate Init(c: Config, w: World) {
    && 0 < c.maxLength
    && SeqKeyed(w.bucket) && (forall e :: e in w.bucket ==> e.seqNo <= c.initialSequence)
    && w.arrived == w.bucket
    && w.cache == CacheView([], c.initialSequence + 1)
    && w.query == None
  }

  ghost predicate Next(c: Config, w: World, step: Step, w': World) {
    match step
    case Write(e) =>
      && (forall x :: x in w.bucket ==> x.seqNo != e.seqNo)
      && w' == w.(bucket := w.bucket + {e})
    case Arrive(e) =>
      // older changes are not delivered
      && e in w.bucket && c.initialSequence < e.seqNo && WellFormed(w.cache) && Fits(w.cache.logs, e)
      && w' == w.(arrived := w.arrived + {e}, cache := Added(w.cache, e, c.maxLength))
    case PruneAge(tooOld) =>
      w' == w.(cache := AgePruned(w.cache, c.minLength, c.maxLength, tooOld))
    case StartQuery(since, limit, activeOnly) =>
      && w.query == None && !Hit(w.cache, since)
      && w' == w.(query := Some(Asking(since, limit, activeOnly, w.cache, w.arrived)))
    case ReadStore(rows) =>
      && w.query.Some? && w.query.value.Asking? && SeqKeyed(w.bucket)
      && AreRows(rows, w.query.value, w.bucket)
      && w' == w.(query := Some(WithRows(w.query.value, w.bucket, rows)))
    case FinishQuery =>
      && w.query.Some? && w.query.value.Answered? && 0 < c.maxLength
      && w' == w.(query := None, cache := Finished(c, w.cache, w.query.value))
  }

  ghost predicate AreRows(rows: seq<LogEntry>, q: Query, bucket: set<LogEntry>)
    requires SeqKeyed(bucket)
  {
    IsFeedRows(FullLog(bucket), q.since + 1, q.seen.validFrom, q.limit, q.activeOnly, rows)
  }

  function WithRows(q: Query, snapshot: set<LogEntry>, rows: seq<LogEntry>): Query
    requires q.Asking?
  {
    Answered(q.since, q.limit, q.activeOnly, q.seen, q.known, snapshot, rows)
  }

  predicate HasRoom(c: Config, q: Query) {
    |q.CachedEntries()| < c.maxLength
  }

  function Finished(c: Config, v: CacheView, q: Query): CacheView
    requires q.Answered? && 0 < c.maxLength
  {
    if HasRoom(c, q) then Prepended(v, q.rows, q.since + 1, q.RowsValidTo(), c.maxLength) else v
  }

  // ---- the invariant, and the one step that may break it

  ghost predicate Inv(c: Config, w: World) {
    && 0 < c.maxLength && |w.cache.logs| <= c.maxLength
    && Agrees(w.cache, w.bucket, w.arrived)
    && (w.query.Some? ==> QueryInv(w.query.value, w.bucket))
  }

  /** The rows of a query are all current changes of its snapshot as far as it reached. */
  ghost predicate QueryInv(q: Query, bucket: set<LogEntry>) {
    && 0 < q.seen.validFrom
    && (q.Answered? ==>
          && q.snapshot <= bucket
          && Covers(q.rows, q.snapshot, q.since + 1, q.RowsValidTo())
          && q.RowsValidTo() <= q.seen.validFrom)
  }

  /** A step is harmless unless it prepends rows in front of a change that arrived too late for the query and too
      early for the cache. */
  ghost predicate Harmless(c: Config, w: World, step: Step) {
    step.FinishQuery? && w.query.Some? && w.query.value.Answered? && HasRoom(c, w.query.value)
    && 0 < c.maxLength && |w.cache.logs| <= c.maxLength ==>
      MissesNothing(c, w, w.query.value)
  }

  ghost predicate MissesNothing(c: Config, w: World, q: Query)
    requires q.Answered? && 0 < c.maxLength && |w.cache.logs| <= c.maxLength
  {
    var low := OpenedFrom(w.cache, q.rows, q.since + 1, q.RowsValidTo(), c.maxLength);
    NothingMissed(low, w.cache.validFrom, w.bucket, w.arrived, q.snapshot)
  }

  lemma InitInv(c: Config, w: World)
    requires Init(c, w)
    ensures Inv(c, w)
  {
  }

  /** Every step keeps the cache in agreement with the store exactly if it is harmless. */
  lemma StepInvIff(c: Config, w: World, step: Step, w': World)
    requires Inv(c, w) && Next(c, w, step, w')
    ensures Inv(c, w') <==> Harmless(c, w, step)
  {
    match step
    case Write(e) => WriteInv(c, w, e, w');
    case Arrive(e) => ArriveInv(c, w, e, w');
    case PruneAge(tooOld) => PruneInv(c, w, tooOld, w');
    case StartQuery(since, limit, activeOnly) => MissSeesNothing(w.cache, since);
    case ReadStore(rows) => ReadStoreInv(c, w, rows, w');
    case FinishQuery => FinishInvIff(c, w, w');
  }

  /** Finishing a query, whatever was written, delivered or pruned since it started. */
  lemma FinishInvIff(c: Config, w: World, w': World)
    requires Inv(c, w) && Next(c, w, FinishQuery, w')
    ensures Inv(c, w') <==> Harmless(c, w, FinishQuery)
  {
    var q := w.query.value;
    if HasRoom(c, q) {
      PrependFits(w.cache, q.rows, q.snapshot, q.since + 1, q.RowsValidTo(), c.maxLength);
      PrependIff(c, w, q);
    }
  }

  lemma PrependIff(c: Config, w: World, q: Query)
    requires 0 < c.maxLength && |w.cache.logs| <= c.maxLength && Agrees(w.cache, w.bucket, w.arrived)
    requires q.Answered? && q.snapshot <= w.bucket
    requires Covers(q.rows, q.snapshot, q.since + 1, q.RowsValidTo())
    ensures Agrees(Prepended(w.cache, q.rows, q.since + 1, q.RowsValidTo(), c.maxLength), w.bucket, w.arrived)
      <==> MissesNothing(c, w, q)
  {
    PrependAgreesIff(w.cache, w.bucket, w.arrived, q.snapshot, q.rows, q.since + 1, q.RowsValidTo(), c.maxLength);
  }

  lemma PrependFits(v: CacheView, rows: seq<LogEntry>, snapshot: set<LogEntry>, start: nat, to: nat, maxLength: nat)
    requires WellFormed(v) && 0 < maxLength && |v.logs| <= maxLength && Covers(rows, snapshot, start, to)
    ensures |Prepended(v, rows, start, to, maxLength).logs| <= maxLength
  {
    PrependedWellFormed(v, rows, start, to, maxLength);
  }

  lemma WriteInv(c: Config, w: World, e: LogEntry, w': World)
    requires Inv(c, w) && Next(c, w, Write(e), w')
    ensures Inv(c, w')
  {
    WriteAgrees(w.cache, w.bucket, w.arrived, e);
  }

  lemma ArriveInv(c: Config, w: World, e: LogEntry, w': World)
    requires Inv(c, w) && Next(c, w, Arrive(e), w')
    ensures Inv(c, w')
  {
    AddAgrees(w.cache, w.bucket, w.arrived, e, c.maxLength);
    AddedLength(w.cache, e, c.maxLength);
  }

  lemma AddedLength(v: CacheView, change: LogEntry, maxLength: nat)
    requires WellFormed(v) && Fits(v.logs, change) && |v.logs| <= maxLength
    ensures |Added(v, change, maxLength).logs| <= maxLength
  {
  }

  lemma PruneInv(c: Config, w: World, tooOld: LogEntry -> bool, w': World)
    requires Inv(c, w) && Next(c, w, PruneAge(tooOld), w')
    ensures Inv(c, w')
  {
    DropAgrees(w.cache, w.bucket, w.arrived, AgedCount(w.cache.logs, c.minLength, tooOld));
  }

  lemma ReadStoreInv(c: Config, w: World, rows: seq<LogEntry>, w': World)
    requires Inv(c, w) && Next(c, w, ReadStore(rows), w')
    ensures Inv(c, w')
  {
    var q := w.query.value;
    FeedRowsCover(w.bucket, q.since + 1, q.seen.validFrom, q.limit, q.activeOnly, rows);
  }

  // ---- runs

  ghost predicate IsRun(c: Config, run: seq<World>, steps: seq<Step>) {
    && |run| == |steps| + 1
    && Init(c, run[0])
    && forall i :: 0 <= i < |steps| ==> Next(c, run[i], steps[i], run[i + 1])
  }

  ghost predicate HarmlessUpTo(c: Config, run: seq<World>, steps: seq<Step>, k: nat)
    requires |run| == |steps| + 1
  {
    forall i :: 0 <= i < k && i < |steps| ==> Harmless(c, run[i], steps[i])
  }

  /** In every run, as long as its steps are harmless, the cache agrees with the store and is within its maximum. */
  lemma {:induction false} AlwaysAgrees(c: Config, run: seq<World>, steps: seq<Step>, k: nat)
    requires IsRun(c, run, steps) && k < |run| && HarmlessUpTo(c, run, steps, k)
    ensures Inv(c, run[k])
  {
    if k == 0 {
      InitInv(c, run[0]);
    } else {
      AlwaysAgrees(c, run, steps, k - 1);
      StepInvIff(c, run[k - 1], steps[k - 1], run[k]);
    }
  }

  /** A run keeps the cache in agreement throughout exactly if all of its steps are harmless. */
  lemma AgreesThroughoutIff(c: Config, run: seq<World>, steps: seq<Step>)
    requires IsRun(c, run, steps)
    ensures (forall k :: 0 <= k < |run| ==> Inv(c, run[k])) <==> HarmlessUpTo(c, run, steps, |steps|)
  {
    if HarmlessUpTo(c, run, steps, |steps|) {
      forall k | 0 <= k < |run|
        ensures Inv(c, run[k])
      {
        AlwaysAgrees(c, run, steps, k);
      }
    }
    if forall k :: 0 <= k < |run| ==> Inv(c, run[k]) {
      forall i | 0 <= i < |steps|
        ensures Harmless(c, run[i], steps[i])
      {
        assert Inv(c, run[i]) && Inv(c, run[i + 1]);
        StepInvIff(c, run[i], steps[i], run[i + 1]);
      }
    }
  }

  /** Whenever the feed has caught up with the store, the cached log is the full channel log from
      validFrom on, whatever came in whichever order and whatever was pruned or prepended. */
  lemma CaughtUpExact(c: Config, run: seq<World>, steps: seq<Step>, k: nat)
    requires IsRun(c, run, steps) && k < |run| && HarmlessUpTo(c, run, steps, k)
    requires run[k].arrived == run[k].bucket
    ensures var w := run[k];
      && SeqKeyed(From(Newest(w.bucket), w.cache.validFrom))
      && w.cache.logs == Sorted(From(Newest(w.bucket), w.cache.validFrom))
      && |w.cache.logs| <= c.maxLength
  {
    AlwaysAgrees(c, run, steps, k);
    ExactWhenCaughtUp(run[k].cache, run[k].bucket);
  }

  /** At any other time a cached entry is stale only if the change that replaced it has not arrived. */
  lemma StaleOnlyIfUnseen(c: Config, run: seq<World>, steps: seq<Step>, k: nat, e: LogEntry, n: LogEntry)
    requires IsRun(c, run, steps) && k < |run| && HarmlessUpTo(c, run, steps, k)
    requires e in run[k].cache.logs && n in Newest(run[k].bucket) && n.docID == e.docID
    ensures n == e || n !in run[k].arrived
  {
    AlwaysAgrees(c, run, steps, k);
    if n in run[k].arrived {
      CachedIsCurrent(run[k].cache, run[k].bucket, run[k].arrived, e, n);
    }
  }

  // ---- requests in a run

  /** What a request read from the cache agrees with the store as it is until the request reads that too. */
  ghost predicate RequestInv(q: Query, bucket: set<LogEntry>) {
    && !Hit(q.seen, q.since)
    && if q.Asking? then Agrees(q.seen, bucket, q.known)
       else Agrees(q.seen, q.snapshot, q.known) && AreRows(q.rows, q, q.snapshot)
  }

  lemma StepKeepsRequest(c: Config, w: World, step: Step, w': World)
    requires Agrees(w.cache, w.bucket, w.arrived) && Next(c, w, step, w')
    requires w.query.Some? ==> RequestInv(w.query.value, w.bucket)
    ensures w'.query.Some? ==> RequestInv(w'.query.value, w'.bucket)
  {
    match step
    case Write(e) => WriteKeepsRequest(c, w, e, w');
    case StartQuery(since, limit, activeOnly) => assert w'.query.value.Asking?;
    case ReadStore(rows) => ReadKeepsRequest(c, w, rows, w');
    case _ => assert w'.query == None || w'.query == w.query;
  }

  lemma WriteKeepsRequest(c: Config, w: World, e: LogEntry, w': World)
    requires Next(c, w, Write(e), w') && (w.query.Some? ==> RequestInv(w.query.value, w.bucket))
    ensures w'.query.Some? ==> RequestInv(w'.query.value, w'.bucket)
  {
    if w.query.Some? && w.query.value.Asking? {
      WriteAgrees(w.query.value.seen, w.bucket, w.query.value.known, e);
    }
  }

  lemma ReadKeepsRequest(c: Config, w: World, rows: seq<LogEntry>, w': World)
    requires Next(c, w, ReadStore(rows), w') && (w.query.Some? ==> RequestInv(w.query.value, w.bucket))
    ensures w'.query.Some? ==> RequestInv(w'.query.value, w'.bucket)
  {
    ReadRequest(w.query.value, w.bucket, rows);
  }

  lemma ReadRequest(q: Query, bucket: set<LogEntry>, rows: seq<LogEntry>)
    requires q.Asking? && RequestInv(q, bucket) && AreRows(rows, q, bucket)
    ensures RequestInv(WithRows(q, bucket, rows), bucket)
  {
    assert AreRows(rows, WithRows(q, bucket, rows), bucket);
  }

  lemma {:induction false} RequestsAgree(c: Config, run: seq<World>, steps: seq<Step>, k: nat)
    requires IsRun(c, run, steps) && k < |run| && HarmlessUpTo(c, run, steps, k)
    ensures run[k].query.Some? ==> RequestInv(run[k].query.value, run[k].bucket)
  {
    if k > 0 {
      RequestsAgree(c, run, steps, k - 1);
      AlwaysAgrees(c, run, steps, k - 1);
      StepKeepsRequest(c, run[k - 1], steps[k - 1], run[k]);
    }
  }

  /** A request that finds what it needs in the cache is answered as if it had asked the store. */
  lemma HitInRun(c: Config, run: seq<World>, steps: seq<Step>, k: nat, since: nat, limit: nat)
    requires IsRun(c, run, steps) && k < |run| && HarmlessUpTo(c, run, steps, k) && Hit(run[k].cache, since)
    ensures var w := run[k];
      var response := Limited(CachedAfter(w.cache, since), limit);
      && Agrees(w.cache, w.bucket, w.arrived)
      && response == Answer(w.cache, FullLog(w.bucket), since, limit)
      && IsOrderedAnswer(response, w.bucket, since)
  {
    AlwaysAgrees(c, run, steps, k);
    AnswerOrdered(run[k].cache, run[k].bucket, run[k].arrived, since, limit);
  }

  /** A request that had to query, with other steps between its reading the cache, reading the store and finishing, is
      answered from the store as it was read and the cache as it was seen: in order, one entry per document, nothing but
      changes of that store after `since`, and within the limit every current change of it that had arrived before.
      With the active-only option the answer is a first part of the same. */
  lemma RequestInRun(c: Config, run: seq<World>, steps: seq<Step>, k: nat)
    requires IsRun(c, run, steps) && k < |steps| && HarmlessUpTo(c, run, steps, k) && steps[k] == FinishQuery
    ensures run[k].query.Some? && run[k].query.value.Answered?
    ensures var q := run[k].query.value;
      && Agrees(q.seen, q.snapshot, q.known)
      && IsOrderedAnswer(q.Response(), q.snapshot, q.since)
      && var whole := Answer(q.seen, FullLog(q.snapshot), q.since, 0);
         && (if q.activeOnly then q.Response() <= whole else q.Response() == Limited(whole, q.limit))
         && forall n :: n in Newest(q.snapshot) && n in q.known && q.since < n.seqNo ==> n in whole
  {
    RequestsAgree(c, run, steps, k);
    assert Next(c, run[k], steps[k], run[k + 1]);
    QueryAnswers(run[k].query.value, run[k].bucket);
  }

  lemma QueryAnswers(q: Query, bucket: set<LogEntry>)
    requires q.Answered? && RequestInv(q, bucket)
    ensures Agrees(q.seen, q.snapshot, q.known)
    ensures IsOrderedAnswer(q.Response(), q.snapshot, q.since)
    ensures var whole := Answer(q.seen, FullLog(q.snapshot), q.since, 0);
      && (if q.activeOnly then q.Response() <= whole else q.Response() == Limited(whole, q.limit))
      && forall n :: n in Newest(q.snapshot) && n in q.known && q.since < n.seqNo ==> n in whole
  {
    var whole := Answer(q.seen, FullLog(q.snapshot), q.since, 0);
    ResponseIs(q);
    AnswerOrdered(q.seen, q.snapshot, q.known, q.since, 0);
    PrefixOrdered(whole, q.Response(), q.snapshot, q.since);
    forall n | n in Newest(q.snapshot) && n in q.known && q.since < n.seqNo
      ensures n in whole
    {
      AnswerComplete(q.seen, q.snapshot, q.known, q.since, n);
    }
  }

  lemma ResponseIs(q: Query)
    requires q.Answered? && !Hit(q.seen, q.since) && SeqKeyed(q.snapshot) && AreRows(q.rows, q, q.snapshot)
    ensures var whole := Answer(q.seen, FullLog(q.snapshot), q.since, 0);
      && q.Response() <= whole
      && (!q.activeOnly ==> q.Response() == Limited(whole, q.limit))
  {
    var log := FullLog(q.snapshot);
    MissSeesNothing(q.seen, q.since);
    if q.activeOnly {
      JoinedIsPrefix(Range(log, q.since + 1, q.seen.validFrom), q.seen.logs, q.rows, q.limit);
    } else {
      AnswerLimited(q.seen, log, q.since, q.limit);
    }
  }

  // ---- when steps are harmless

  /** No change is written below the end of a query after it has read the store. */
  ghost predicate OnTime(w: World) {
    w.query.Some? && w.query.value.Answered? ==>
      forall e :: e in w.bucket && e !in w.query.value.snapshot ==> w.query.value.seen.validFrom <= e.seqNo
  }

  /** A store that only grows in order while a query is in flight does no harm, whatever appends and prunes do. */
  lemma OnTimeIsHarmless(c: Config, w: World, step: Step)
    requires Inv(c, w) && OnTime(w)
    ensures Harmless(c, w, step)
  {
    if step.FinishQuery? && w.query.Some? && w.query.value.Answered? {
      var q := w.query.value;
      OpensOnlyIfReached(w.cache, q.rows, q.since + 1, q.RowsValidTo(), c.maxLength);
    }
  }

  /** A prepend lowers validFrom only if the query reached it. */
  lemma OpensOnlyIfReached(v: CacheView, rows: seq<LogEntry>, start: nat, to: nat, maxLength: nat)
    requires 0 < maxLength && |v.logs| <= maxLength
    ensures OpenedFrom(v, rows, start, to, maxLength) < v.validFrom ==> v.validFrom <= to
  {
  }

  /** Nor does a late change that is delivered only after the prepend. */
  lemma UndeliveredIsHarmless(c: Config, w: World, step: Step)
    requires w.query.Some? && w.query.value.Answered?
    requires forall n :: n in w.arrived && n !in w.query.value.snapshot ==> w.cache.validFrom <= n.seqNo
    ensures Harmless(c, w, step)
  {
  }
}
