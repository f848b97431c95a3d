/** The merge loop of the changes feed (db/changes.go:530-633): `current` holds the next entry of each feed,
    and each round takes the least ID on offer from every feed that offers it. */
module ChangesFeed {
  import opened Options
  import opened LogEntries
  import opened SequenceIds
  import opened ChangesMerge

  /** The part of the feeds not yet taken: the buffered entries and what is still to be read. */
  ghost function Left(current: seq<Option<ChangeEntry>>, feeds: seq<seq<ChangeEntry>>): (r: seq<seq<ChangeEntry>>)
    requires |current| == |feeds|
    ensures |r| == |feeds|
    ensures forall i :: 0 <= i < |feeds| ==> r[i] == (if current[i].Some? then [current[i].value] else []) + feeds[i]
  {
    seq(|feeds|, i requires 0 <= i < |feeds| => (if current[i].Some? then [current[i].value] else []) + feeds[i])
  }

  /** Every buffer holds what its feed offers next. */
  ghost predicate Filled(current: seq<Option<ChangeEntry>>, left: seq<seq<ChangeEntry>>) {
    && |current| == |left|
    && forall i :: 0 <= i < |left| ==> current[i] == if left[i] == [] then None else Some(left[i][0])
  }

  method Fill(current: seq<Option<ChangeEntry>>, feeds: seq<seq<ChangeEntry>>)
    returns (current': seq<Option<ChangeEntry>>, feeds': seq<seq<ChangeEntry>>)
    requires |current| == |feeds|
    ensures |current'| == |feeds'| == |feeds|
    ensures Left(current', feeds') == Left(current, feeds)
    ensures Filled(current', Left(current, feeds))
  {
    current', feeds' := current, feeds;
    var i := 0;
    while i < |current'|
      invariant 0 <= i <= |current'| == |current| == |feeds'|
      invariant forall k :: 0 <= k < |feeds| ==> Left(current', feeds')[k] == Left(current, feeds)[k]
      invariant forall k :: 0 <= k < i && current'[k].None? ==> feeds'[k] == []
    {
      ghost var before := Left(current', feeds');
      if current'[i].None? && feeds'[i] != [] {
        assert [feeds'[i][0]] + feeds'[i][1..] == feeds'[i];
        current' := current'[i := Some(feeds'[i][0])];
        feeds' := feeds'[i := feeds'[i][1..]];
      }
      assert forall k :: 0 <= k < |feeds| ==> Left(current', feeds')[k] == before[k];
      i := i + 1;
    }
  }

  /** The current entry with the least ID. */
  method FindMin(current: seq<Option<ChangeEntry>>, ghost left: seq<seq<ChangeEntry>>) returns (least: Option<nat>)
    requires Filled(current, left)
    ensures least == LeastFeed(left, |left|)
  {
    var minSeq := MAX_SEQUENCE_ID;
    least := None;
    var i := 0;
    while i < |current|
      invariant 0 <= i <= |current|
      invariant least == LeastFeed(left, i)
      invariant minSeq == if least.None? then MAX_SEQUENCE_ID else left[least.value][0].id
    {
      if current[i].Some? && current[i].value.id.Before(minSeq) {
        minSeq := current[i].value.id;
        least := Some(i);
      }
      i := i + 1;
    }
  }

  /** Clears the current entries with the least ID and combines their removals into the first of them. */
  method TakeMin(current: seq<Option<ChangeEntry>>, first: nat, ghost left: seq<seq<ChangeEntry>>)
    returns (current': seq<Option<ChangeEntry>>, minEntry: ChangeEntry)
    requires Filled(current, left) && first < |left| && left[first] != []
    requires forall j :: 0 <= j < first ==> !Offers(left[j], left[first][0].id)
    ensures minEntry == Combined(left, first)
    ensures |current'| == |left|
    ensures forall i :: 0 <= i < |left| ==>
      current'[i] == if Offers(left[i], left[first][0].id) then None else current[i]
  {
    minEntry := current[first].value;
    var minSeq := minEntry.id;
    ghost var base := minEntry;
    current' := current;
    if minEntry.removed.Some? {
      minEntry := minEntry.(allRemoved := true);
    }
    var i := 0;
    while i < |current|
      invariant 0 <= i <= |current| && |current'| == |current|
      invariant forall k :: 0 <= k < |left| ==>
        current'[k] == if k < i && Offers(left[k], minSeq) then None else current[k]
      invariant minEntry == base.(removed := minEntry.removed, allRemoved := minEntry.allRemoved)
      invariant i <= first ==>
        && minEntry.removed == base.removed
        && RemovedUpTo(left, minSeq, i) == None && AllRemovedUpTo(left, minSeq, i)
      invariant i <= first && base.removed.Some? ==> minEntry.allRemoved
      invariant i > first ==>
        && minEntry.removed == RemovedUpTo(left, minSeq, i)
        && minEntry.allRemoved == AllRemovedUpTo(left, minSeq, i)
    {
      if current'[i].Some? && current'[i].value.id == minSeq {
        var cur := current'[i].value;
        current' := current'[i := None];
        if cur.removed.None? && minEntry.allRemoved {
          minEntry := minEntry.(allRemoved := false);
        }
        if i != first && cur.removed.Some? {
          if minEntry.removed.None? {
            minEntry := minEntry.(removed := cur.removed);
          } else {
            minEntry := minEntry.(removed := Some(minEntry.removed.value + cur.removed.value));
          }
        }
      }
      i := i + 1;
    }
  }

  function WithLow(e: ChangeEntry, lowSequence: nat): ChangeEntry {
    e.(id := e.id.(lowSeq := lowSequence))
  }

  function AllWithLow(s: seq<ChangeEntry>, lowSequence: nat): (r: seq<ChangeEntry>)
    ensures |r| == |s| && forall i :: 0 <= i < |s| ==> r[i] == WithLow(s[i], lowSequence)
  {
    seq(|s|, i requires 0 <= i < |s| => WithLow(s[i], lowSequence))
  }

  ghost predicate PastStable(all: seq<ChangeEntry>, stable: nat, activeOnly: bool) {
    exists e :: e in all && Wanted(e, activeOnly) && e.id.seqNo > stable
  }

  lemma {:induction false} SentAppend(a: seq<ChangeEntry>, e: ChangeEntry, stable: nat, activeOnly: bool)
    ensures Sent(a + [e], stable, activeOnly) ==
      Sent(a, stable, activeOnly) + (if Sendable(e, stable, activeOnly) then [e] else [])
  {
    if a == [] {
      assert a + [e] == [e];
    } else {
      assert (a + [e])[1..] == a[1..] + [e];
      SentAppend(a[1..], e, stable, activeOnly);
    }
  }

  lemma {:induction false} SentPrefix(a: seq<ChangeEntry>, b: seq<ChangeEntry>, stable: nat, activeOnly: bool)
    ensures Sent(a, stable, activeOnly) <= Sent(a + b, stable, activeOnly)
  {
    if a != [] {
      assert (a + b)[1..] == a[1..] + b;
      SentPrefix(a[1..], b, stable, activeOnly);
    }
  }

  /** One round of the merge. */
  lemma MergeStep(current: seq<Option<ChangeEntry>>, feeds: seq<seq<ChangeEntry>>, current': seq<Option<ChangeEntry>>)
    requires |current| == |feeds| && Filled(current, Left(current, feeds))
    requires LeastFeed(Left(current, feeds), |feeds|).Some?
    requires var left := Left(current, feeds);
      var id := left[LeastFeed(left, |left|).value][0].id;
      |current'| == |left| && forall i :: 0 <= i < |left| ==>
        current'[i] == if Offers(left[i], id) then None else current[i]
    ensures var left := Left(current, feeds);
      var least := LeastFeed(left, |left|).value;
      && Left(current', feeds) == Passed(left, left[least][0].id)
      && Merged(left) == [Combined(left, least)] + Merged(Left(current', feeds))
      && TotalLength(Left(current', feeds)) < TotalLength(left)
  {
    var left := Left(current, feeds);
    var least := LeastFeed(left, |left|).value;
    var id := left[least][0].id;
    var left' := Left(current', feeds);
    forall i | 0 <= i < |left|
      ensures left'[i] == Passed(left, id)[i]
    {
      if Offers(left[i], id) {
        assert left[i][1..] == feeds[i];
      }
    }
    TotalDrops(left, Passed(left, id), least);
  }

  /** Reads the next entry of the merge, if there is one. */
  method NextEntry(current: seq<Option<ChangeEntry>>, feeds: seq<seq<ChangeEntry>>)
    returns (current': seq<Option<ChangeEntry>>, feeds': seq<seq<ChangeEntry>>, entry: Option<ChangeEntry>)
    requires |current| == |feeds| && AscendingFeeds(Left(current, feeds))
    ensures |current'| == |feeds'| == |feeds| && AscendingFeeds(Left(current', feeds'))
    ensures entry.None? ==> Merged(Left(current, feeds)) == []
    ensures entry.Some? ==> Merged(Left(current, feeds)) == [entry.value] + Merged(Left(current', feeds'))
    ensures entry.Some? ==> TotalLength(Left(current', feeds')) < TotalLength(Left(current, feeds))
  {
    ghost var left := Left(current, feeds);
    current', feeds' := Fill(current, feeds);
    var least := FindMin(current', left);
    if least.None? {
      return current', feeds', None;
    }
    HeadsArePlain(left);
    LeastFeedIsLeast(left, |left|);
    var taken, minEntry := TakeMin(current', least.value, left);
    MergeStep(current', feeds', taken);
    PassedAscending(left, left[least.value][0].id);
    return taken, feeds', Some(minEntry);
  }

  /** What one iteration has sent, where the reader would resume, and whether it met entries past the
      stable sequence. */
  datatype Sender = Sender(output: seq<ChangeEntry>, since: SequenceID, postStableSeqsFound: bool)

  /** The sender after the merged entries `done`. */
  ghost function Sending(done: seq<ChangeEntry>, stable: nat, lowSequence: nat, since: SequenceID,
                         activeOnly: bool): Sender
  {
    var sent := Sent(done, stable, activeOnly);
    Sender(AllWithLow(sent, lowSequence), Advanced(since, sent), PastStable(done, stable, activeOnly))
  }

  lemma SendingOne(done: seq<ChangeEntry>, e: ChangeEntry, stable: nat, lowSequence: nat, since: SequenceID,
                   activeOnly: bool)
    ensures var before := Sending(done, stable, lowSequence, since, activeOnly);
      Sending(done + [e], stable, lowSequence, since, activeOnly) ==
        if !Wanted(e, activeOnly) then before
        else if stable < e.id.seqNo then before.(postStableSeqsFound := true)
        else before.(output := before.output + [WithLow(e, lowSequence)],
                     since := if before.since.Before(e.id) then e.id else before.since)
  {
    SentAppend(done, e, stable, activeOnly);
    PastStableAppend(done, e, stable, activeOnly);
    var sent := Sent(done, stable, activeOnly);
    if Sendable(e, stable, activeOnly) {
      AdvancedAppend(since, sent, e);
      AllWithLowAppend(sent, e, lowSequence);
    } else {
      assert sent + [] == sent;
    }
  }

  lemma AdvancedAppend(since: SequenceID, sent: seq<ChangeEntry>, e: ChangeEntry)
    ensures var before := Advanced(since, sent);
      Advanced(since, sent + [e]) == if before.Before(e.id) then e.id else before
  {
    assert (sent + [e])[..|sent|] == sent;
  }

  lemma AllWithLowAppend(sent: seq<ChangeEntry>, e: ChangeEntry, lowSequence: nat)
    ensures AllWithLow(sent + [e], lowSequence) == AllWithLow(sent, lowSequence) + [WithLow(e, lowSequence)]
  {
  }

  /** Sends one merged entry, unless it is unwanted or later than the stable sequence. */
  method SendEntry(minEntry: ChangeEntry, stable: nat, lowSequence: nat, activeOnly: bool, st: Sender)
    returns (st': Sender)
    ensures st' ==
      if !Wanted(minEntry, activeOnly) then st
      else if stable < minEntry.id.seqNo then st.(postStableSeqsFound := true)
      else st.(output := st.output + [WithLow(minEntry, lowSequence)],
               since := if st.since.Before(minEntry.id) then minEntry.id else st.since)
  {
    st' := st;
    if activeOnly {
      if minEntry.deleted || minEntry.allRemoved {
        return;
      }
    }
    if stable < minEntry.id.seqNo {
      st' := st'.(postStableSeqsFound := true);
      return;
    }
    if st'.since.Before(minEntry.id) {
      st' := st'.(since := minEntry.id);
    }
    st' := st'.(output := st'.output + [WithLow(minEntry, lowSequence)]);
  }

  /** Merges the feeds and sends what may be sent, up to the limit (0 for none). */
  method MergeFeeds(feeds: seq<seq<ChangeEntry>>, stable: nat, lowSequence: nat, since: SequenceID, limit: nat,
                    activeOnly: bool)
    returns (st: Sender)
    requires AscendingFeeds(feeds)
    ensures var sent := Limited(Sent(Merged(feeds), stable, activeOnly), limit);
      && |st.output| == |sent| && st.since == Advanced(since, sent)
      && forall i :: 0 <= i < |sent| ==>
           && st.output[i].docID == sent[i].docID && st.output[i].deleted == sent[i].deleted
           && st.output[i].removed == sent[i].removed && st.output[i].allRemoved == sent[i].allRemoved
           && st.output[i].id == SequenceID(sent[i].id.seqNo, sent[i].id.triggeredBy, lowSequence)
    ensures limit == 0 ==>
      (st.postStableSeqsFound <==>
         exists e :: e in Merged(feeds) && stable < e.id.seqNo && !(activeOnly && (e.deleted || e.allRemoved)))
  {
    ghost var done;
    st, done := MergeUntil(feeds, stable, lowSequence, since, limit, activeOnly);
    Outcome(Merged(feeds), done, stable, activeOnly, limit);
  }

  lemma Outcome(all: seq<ChangeEntry>, done: seq<ChangeEntry>, stable: nat, activeOnly: bool, limit: nat)
    requires done <= all
    requires (limit > 0 && |Sent(done, stable, activeOnly)| == limit) || done == all
    requires limit > 0 ==> |Sent(done, stable, activeOnly)| <= limit
    ensures Limited(Sent(all, stable, activeOnly), limit) == Sent(done, stable, activeOnly)
  {
    var rest := all[|done|..];
    assert all == done + rest;
    SentPrefix(done, rest, stable, activeOnly);
  }

  /** The loop: it ends when the feeds are exhausted or the limit is reached. */
  method MergeUntil(feeds: seq<seq<ChangeEntry>>, stable: nat, lowSequence: nat, since: SequenceID, limit: nat,
                    activeOnly: bool)
    returns (st: Sender, ghost done: seq<ChangeEntry>)
    requires AscendingFeeds(feeds)
    ensures done <= Merged(feeds) && st == Sending(done, stable, lowSequence, since, activeOnly)
    ensures (limit > 0 && |st.output| == limit) || done == Merged(feeds)
    ensures limit > 0 ==> |st.output| <= limit
  {
    var current: seq<Option<ChangeEntry>> := seq(|feeds|, _ => None);
    var unread := feeds;
    done := [];
    st := Sender([], since, false);
    ghost var rest := Merged(feeds);
    NothingTaken(feeds);
    while true
      invariant |current| == |unread| && AscendingFeeds(Left(current, unread))
      invariant Merged(feeds) == done + rest && rest == Merged(Left(current, unread))
      invariant st == Sending(done, stable, lowSequence, since, activeOnly)
      invariant limit > 0 ==> |st.output| < limit
      decreases TotalLength(Left(current, unread))
    {
      var entry;
      current, unread, entry := NextEntry(current, unread);
      if entry.None? {
        break;
      }
      SendingOne(done, entry.value, stable, lowSequence, since, activeOnly);
      rest := Merged(Left(current, unread));
      MoveOne(done, entry.value, rest);
      done := done + [entry.value];
      st := SendEntry(entry.value, stable, lowSequence, activeOnly, st);
      if limit > 0 && |st.output| == limit {
        break;
      }
    }
  }

  lemma MoveOne<T>(a: seq<T>, x: T, rest: seq<T>)
    ensures a + ([x] + rest) == (a + [x]) + rest
  {
  }

  lemma NothingTaken(feeds: seq<seq<ChangeEntry>>)
    ensures var current: seq<Option<ChangeEntry>> := seq(|feeds|, _ => None); Left(current, feeds) == feeds
  {
    var current: seq<Option<ChangeEntry>> := seq(|feeds|, _ => None);
    assert forall k :: 0 <= k < |feeds| ==> Left(current, feeds)[k] == [] + feeds[k] == feeds[k];
  }

  lemma PastStableAppend(a: seq<ChangeEntry>, e: ChangeEntry, stable: nat, activeOnly: bool)
    ensures PastStable(a + [e], stable, activeOnly) <==>
      PastStable(a, stable, activeOnly) || (Wanted(e, activeOnly) && e.id.seqNo > stable)
  {
    assert forall x :: x in a + [e] <==> x in a || x == e;
  }
}
