/** The late-sequence part of the channel cache and the feeds that listen to it, as the source keeps them:
    fields updated in place, scanned by loops. */
module LateSequences {
  import opened Options
  import opened LogEntries
  import opened LateSequencesSpec

  class LateLogs {
    var lateLogs: seq<LateEntry>
    var lastLateSequence: nat

    function View(): LateLog
      reads this
    {
      LateLog(lateLogs, lastLateSequence)
    }

    constructor ()
      ensures View() == Initial()
    {
      lateLogs := [LateEntry(SENTINEL, 0)];
      lastLateSequence := 0;
    }

    /** Late changes since `sinceSequence`; an error if that position is gone. */
    method GetLateSequencesSince(sinceSequence: nat) returns (entries: seq<LogEntry>, lastSequence: nat, err: bool)
      requires lateLogs != []
      modifies this`lateLogs
      ensures match Poll(old(View()), sinceSequence)
        case Polled(e, last, log) => !err && entries == e && lastSequence == last && View() == log
        case RollbackRequired => err && entries == [] && lastSequence == 0 && View() == old(View())
    {
      if sinceSequence == lastLateSequence {
        return [], sinceSequence, false;
      }
      entries := [];
      var previousFound := false;
      var previous := 0;
      var index := 0;
      while index < |lateLogs|
        invariant unchanged(this)
        invariant Scanned(lateLogs, sinceSequence, index, previousFound, previous, entries)
      {
        ScanStep(lateLogs, sinceSequence, index, previousFound, previous, entries);
        if previousFound {
          entries := entries + [lateLogs[index].entry];
        } else {
          if lateLogs[index].entry.seqNo == sinceSequence {
            previous := index;
            previousFound := true;
          }
        }
        index := index + 1;
      }
      ScanDone(lateLogs, sinceSequence, previousFound, previous, entries);
      if !previousFound {
        return [], 0, true;
      }
      lateLogs := Unlistened(lateLogs, previous);
      lateLogs := Listened(lateLogs, |lateLogs| - 1);
      lastSequence := lateLogs[|lateLogs| - 1].entry.seqNo;
      err := false;
      assert View() == old(View()).(logs := Listened(Unlistened(old(lateLogs), previous), |old(lateLogs)| - 1));
    }

    /** The starting point of a new feed. */
    method InitLateSequenceClient() returns (sequence: nat)
      requires lateLogs != []
      modifies this`lateLogs
      ensures View() == Registered(old(View()))
      ensures sequence == old(lateLogs[|lateLogs| - 1]).entry.seqNo
    {
      sequence := lateLogs[|lateLogs| - 1].entry.seqNo;
      lateLogs := Listened(lateLogs, |lateLogs| - 1);
    }

    method ReleaseLateSequenceClient(sequence: nat) returns (ok: bool)
      modifies this`lateLogs
      ensures match Released(old(View()), sequence)
        case Some(log) => ok && View() == log
        case None => !ok && View() == old(View())
    {
      var i := 0;
      while i < |lateLogs|
        invariant 0 <= i <= |lateLogs| && lateLogs == old(lateLogs)
        invariant Find(lateLogs, sequence) == i + Find(lateLogs[i..], sequence)
      {
        assert lateLogs[i..][1..] == lateLogs[i + 1..];
        if lateLogs[i].entry.seqNo == sequence {
          lateLogs := Unlistened(lateLogs, i);
          return true;
        }
        i := i + 1;
      }
      return false;
    }

    method AddLateSequence(change: LogEntry)
      modifies this
      ensures View() == AddedLate(old(View()), change)
    {
      lateLogs := lateLogs + [LateEntry(change, 0)];
      lastLateSequence := change.seqNo;
      PurgeLateLogEntries();
    }

    /** Drops entries without listeners from the front, always keeping the last one. */
    method PurgeLateLogEntries()
      modifies this`lateLogs
      ensures View() == Purged(old(View()))
    {
      ghost var k := 0;
      while |lateLogs| > 1 && lateLogs[0].listeners == 0
        invariant 0 <= k <= |old(lateLogs)| && lateLogs == old(lateLogs)[k..]
        invariant PurgeCount(old(lateLogs)) == k + PurgeCount(lateLogs)
      {
        lateLogs := lateLogs[1..];
        k := k + 1;
      }
    }
  }

  /** A feed's position in a channel's late log. */
  class LateSequenceFeed {
    var lastSequence: nat
    const log: LateLogs

    constructor (log: LateLogs)
      requires log.lateLogs != []
      modifies log`lateLogs
      ensures this.log == log && log.View() == Registered(old(log.View()))
      ensures lastSequence == old(log.lateLogs[|log.lateLogs| - 1]).entry.seqNo
    {
      this.log := log;
      var sequence := log.InitLateSequenceClient();
      lastSequence := sequence;
    }

    /** The late changes not yet sent on this feed, sorted by sequence for the merge. */
    method GetLateFeed() returns (feed: Option<seq<LogEntry>>)
      requires log.lateLogs != []
      modifies this, log`lateLogs
      ensures match Poll(old(log.View()), old(lastSequence))
        case Polled(entries, last, l) =>
          && feed.Some? && IsSortOf(feed.value, entries)
          && log.View() == l && lastSequence == last
        case RollbackRequired =>
          feed == None && log.View() == old(log.View()) && lastSequence == old(lastSequence)
    {
      var logs, last, err := log.GetLateSequencesSince(lastSequence);
      if err {
        return None;
      }
      var sorted := SortLogs(logs);
      lastSequence := last;
      return Some(sorted);
    }

    method CloseLateFeed() returns (ok: bool)
      modifies log`lateLogs
      ensures match Released(old(log.View()), lastSequence)
        case Some(l) => ok && log.View() == l
        case None => !ok && log.View() == old(log.View())
    {
      ok := log.ReleaseLateSequenceClient(lastSequence);
    }
  }

  predicate InOrder(s: seq<LogEntry>) {
    forall i, j :: 0 <= i < j < |s| ==> s[i].seqNo <= s[j].seqNo
  }

  ghost predicate IsSortOf(r: seq<LogEntry>, s: seq<LogEntry>) {
    InOrder(r) && multiset(r) == multiset(s)
  }

  method SortLogs(s: seq<LogEntry>) returns (r: seq<LogEntry>)
    ensures IsSortOf(r, s)
  {
    r := [];
    var i := 0;
    while i < |s|
      invariant 0 <= i <= |s| && IsSortOf(r, s[..i])
    {
      assert s[..i + 1] == s[..i] + [s[i]];
      r := InsertSorted(r, s[i]);
      i := i + 1;
    }
    assert s[..|s|] == s;
  }

  method InsertSorted(s: seq<LogEntry>, e: LogEntry) returns (r: seq<LogEntry>)
    requires InOrder(s)
    ensures InOrder(r) && multiset(r) == multiset(s) + multiset{e}
  {
    var p := |s|;
    while p > 0 && s[p - 1].seqNo > e.seqNo
      invariant 0 <= p <= |s|
      invariant forall k :: p <= k < |s| ==> e.seqNo < s[k].seqNo
    {
      p := p - 1;
    }
    InsertionOrder(s, p, e);
    InsertionElements(s, p, e);
    r := s[..p] + [e] + s[p..];
  }

  lemma InsertionElements(s: seq<LogEntry>, p: nat, e: LogEntry)
    requires p <= |s|
    ensures multiset(s[..p] + [e] + s[p..]) == multiset(s) + multiset{e}
  {
    assert s == s[..p] + s[p..];
  }

  lemma InsertionOrder(s: seq<LogEntry>, p: nat, e: LogEntry)
    requires InOrder(s) && p <= |s|
    requires p > 0 ==> s[p - 1].seqNo <= e.seqNo
    requires forall k :: p <= k < |s| ==> e.seqNo < s[k].seqNo
    ensures InOrder(s[..p] + [e] + s[p..])
  {
    var r := s[..p] + [e] + s[p..];
    forall i, j | 0 <= i < j < |r|
      ensures r[i].seqNo <= r[j].seqNo
    {
      if j < p {
      } else if j == p {
        assert s[i].seqNo <= s[p - 1].seqNo;
      } else if i < p {
        assert r[j] == s[j - 1];
      }
    }
  }

  // ---- the scan for late changes

  /** Whether the position `since` has been passed, where, and what follows it so far. */
  ghost predicate Scanned(logs: seq<LateEntry>, since: nat, index: nat, found: bool, previous: nat,
                          entries: seq<LogEntry>)
  {
    && index <= |logs|
    && if found
       then previous < index && previous == Find(logs, since) && entries == LateEntries(logs[previous + 1..index])
       else Find(logs, since) == index + Find(logs[index..], since) && entries == []
  }

  lemma ScanStep(logs: seq<LateEntry>, since: nat, index: nat, found: bool, previous: nat, entries: seq<LogEntry>)
    requires Scanned(logs, since, index, found, previous, entries) && index < |logs|
    ensures var found' := found || logs[index].entry.seqNo == since;
      Scanned(logs, since, index + 1, found', if found then previous else index,
              if found then entries + [logs[index].entry] else entries)
  {
    if found {
      assert logs[previous + 1..index + 1] == logs[previous + 1..index] + [logs[index]];
    } else {
      assert logs[index..][0] == logs[index] && logs[index..][1..] == logs[index + 1..];
    }
  }

  lemma ScanDone(logs: seq<LateEntry>, since: nat, found: bool, previous: nat, entries: seq<LogEntry>)
    requires Scanned(logs, since, |logs|, found, previous, entries)
    ensures found <==> Find(logs, since) < |logs|
    ensures found ==> previous == Find(logs, since) && entries == LateEntries(logs[previous + 1..])
  {
    if found {
      assert logs[previous + 1..|logs|] == logs[previous + 1..];
    }
  }
}
