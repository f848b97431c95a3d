/** Late-arriving sequences (db/channel_cache.go:621-769, db/changes.go:785-840) on values. Each channel keeps
    the late changes in arrival order, with the number of feeds ("listeners") positioned at each. */
module LateSequencesSpec {
  import opened Options
  import opened Numbers
  import opened LogEntries

  datatype LateEntry = LateEntry(entry: LogEntry, listeners: nat)

  datatype LateLog = LateLog(logs: seq<LateEntry>, last: nat)

  /** A list of entries with one zero entry to track listeners from. */
  const SENTINEL := LogEntry(0, "", "", false, false)

  function Initial(): LateLog {
    LateLog([LateEntry(SENTINEL, 0)], 0)
  }

  /** Unsigned increment and decrement, wrapping as the source's counter does. */
  function Increment(n: nat): nat {
    if n == MAX_UINT64 then 0 else n + 1
  }

  function Decrement(n: nat): nat {
    if n == 0 then MAX_UINT64 else n - 1
  }

  function Listened(logs: seq<LateEntry>, i: nat): seq<LateEntry>
    requires i < |logs|
  {
    logs[i := logs[i].(listeners := Increment(logs[i].listeners))]
  }

  function Unlistened(logs: seq<LateEntry>, i: nat): seq<LateEntry>
    requires i < |logs|
  {
    logs[i := logs[i].(listeners := Decrement(logs[i].listeners))]
  }

  /** The first position of a sequence, or the length. */
  function Find(logs: seq<LateEntry>, sequence: nat): (i: nat)
    ensures i <= |logs|
    ensures i < |logs| ==> logs[i].entry.seqNo == sequence
  {
    if logs == [] then 0
    else if logs[0].entry.seqNo == sequence then 0
    else 1 + Find(logs[1..], sequence)
  }

  lemma {:induction false} FindFirst(logs: seq<LateEntry>, sequence: nat, i: nat)
    requires i < |logs| && logs[i].entry.seqNo == sequence
    requires forall k :: 0 <= k < i ==> logs[k].entry.seqNo != sequence
    ensures Find(logs, sequence) == i
  {
    if i > 0 {
      FindFirst(logs[1..], sequence, i - 1);
    }
  }

  function PurgeCount(logs: seq<LateEntry>): (k: nat)
    ensures logs != [] ==> k < |logs|
    ensures logs == [] ==> k == 0
    ensures forall i :: 0 <= i < k ==> logs[i].listeners == 0
    ensures k + 1 < |logs| ==> logs[k].listeners != 0
  {
    if |logs| > 1 && logs[0].listeners == 0 then 1 + PurgeCount(logs[1..]) else 0
  }

  function Purged(l: LateLog): LateLog {
    l.(logs := l.logs[PurgeCount(l.logs)..])
  }

  function AddedLate(l: LateLog, change: LogEntry): LateLog {
    Purged(LateLog(l.logs + [LateEntry(change, 0)], change.seqNo))
  }

  function Registered(l: LateLog): LateLog
    requires l.logs != []
  {
    l.(logs := Listened(l.logs, |l.logs| - 1))
  }

  datatype Polled = Polled(entries: seq<LogEntry>, lastSequence: nat, log: LateLog) | RollbackRequired

  function LateEntries(logs: seq<LateEntry>): (r: seq<LogEntry>)
    ensures |r| == |logs|
  {
    seq(|logs|, i requires 0 <= i < |logs| => logs[i].entry)
  }

  /** Everything that arrived after the entry with sequence `since`; the listener moves to the latest entry. */
  function Poll(l: LateLog, since: nat): Polled
    requires l.logs != []
  {
    if since == l.last then Polled([], since, l)
    else
      var i := Find(l.logs, since);
      if i == |l.logs| then RollbackRequired
      else
        var logs := Listened(Unlistened(l.logs, i), |l.logs| - 1);
        Polled(LateEntries(l.logs[i + 1..]), l.logs[|l.logs| - 1].entry.seqNo, l.(logs := logs))
  }

  /** None if the sequence is no longer listed. */
  function Released(l: LateLog, sequence: nat): Option<LateLog> {
    var i := Find(l.logs, sequence);
    if i < |l.logs| then Some(l.(logs := Unlistened(l.logs, i))) else None
  }
}
