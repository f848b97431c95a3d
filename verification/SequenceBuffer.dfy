/** The change cache's sequence buffering (db/change_cache.go): the skipped sequence list and the fields and
    methods that implement SequenceBufferSpec. The priority queue is a set from which the minimum is taken. */
module SequenceBuffer {
  import opened Numbers
  import opened SequenceBufferSpec

  lemma {:induction false} WithoutOne(s: seq<nat>, i: nat)
    requires StrictlyAscending(s) && i < |s|
    ensures Without(s, {s[i]}) == s[..i] + s[i + 1..]
  {
    if i == 0 {
      NoneGone(s[1..], {s[0]});
    } else {
      assert s[1..][i - 1] == s[i];
      WithoutOne(s[1..], i - 1);
      assert s[..i] == [s[0]] + s[1..][..i - 1];
      assert s[i + 1..] == s[1..][i..];
    }
  }

  lemma {:induction false} NoneGone(s: seq<nat>, gone: set<nat>)
    requires forall x :: x in s ==> x !in gone
    ensures Without(s, gone) == s
  {
    if s != [] {
      assert s[0] in s;
      NoneGone(s[1..], gone);
    }
  }

  lemma {:induction false} WithoutTwice(s: seq<nat>, a: set<nat>, b: set<nat>)
    ensures Without(Without(s, a), b) == Without(s, a + b)
  {
    if s != [] {
      WithoutTwice(s[1..], a, b);
      assert s[0] !in a ==> Without(s, a)[1..] == Without(s[1..], a);
    }
  }

  /** The skipped sequences: an ascending list, with a map to look them up. */
  class SkippedSequenceList {
    var skippedList: seq<nat>
    var skippedMap: set<nat>

    ghost predicate Valid()
      reads this
    {
      StrictlyAscending(skippedList) && skippedMap == SetOf(skippedList)
    }

    constructor ()
      ensures Valid() && skippedList == []
    {
      skippedList, skippedMap := [], {};
    }

    /** 0 if nothing is skipped. */
    method GetOldest() returns (oldest: nat)
      requires Valid()
      ensures skippedList == [] ==> oldest == 0
      ensures skippedList != [] ==> oldest in skippedList && forall s :: s in skippedList ==> oldest <= s
    {
      oldest := 0;
      if |skippedList| > 0 {
        oldest := skippedList[0];
      }
    }

    method Contains(x: nat) returns (found: bool)
      requires Valid()
      ensures found <==> x in skippedList
    {
      found := x in skippedMap;
    }

    method Push(x: nat) returns (ok: bool)
      requires Valid()
      modifies this
      ensures Valid() && skippedList == Pushed(old(skippedList), x)
      ensures ok <==> forall s :: s in old(skippedList) ==> s < x
    {
      var validPush := false;
      if |skippedList| == 0 {
        validPush := true;
      } else {
        assert skippedList[|skippedList| - 1] in skippedList;
        if skippedList[|skippedList| - 1] < x {
          validPush := true;
        }
      }
      if validPush {
        skippedList := skippedList + [x];
        skippedMap := skippedMap + {x};
      }
      ok := validPush;
    }

    method Remove(x: nat) returns (ok: bool)
      requires Valid()
      modifies this
      ensures Valid() && skippedList == Without(old(skippedList), {x})
      ensures ok <==> x in old(skippedList)
    {
      WithoutAscending(skippedList, {x});
      if x in skippedMap {
        var i := 0;
        while skippedList[i] != x
          invariant 0 <= i < |skippedList|
          invariant x in skippedList[i..]
        {
          assert skippedList[i..] == [skippedList[i]] + skippedList[i + 1..];
          i := i + 1;
        }
        WithoutOne(skippedList, i);
        skippedList := skippedList[..i] + skippedList[i + 1..];
        skippedMap := skippedMap - {x};
        ok := true;
      } else {
        NoneGone(skippedList, {x});
        ok := false;
      }
    }

    /** Removes what is still listed, and counts it. */
    method RemoveSequences(sequences: seq<nat>) returns (removedCount: nat)
      requires Valid()
      modifies this
      ensures Valid() && skippedList == Without(old(skippedList), SetOf(sequences))
      ensures removedCount == |old(skippedList)| - |skippedList|
    {
      removedCount := 0;
      var i := 0;
      NoneGone(skippedList, SetOf(sequences[..0]));
      while i < |sequences|
        invariant 0 <= i <= |sequences|
        invariant Valid() && skippedList == Without(old(skippedList), SetOf(sequences[..i]))
        invariant removedCount == |old(skippedList)| - |skippedList|
      {
        RemovalCount(skippedList, sequences[i]);
        RemovalStep(old(skippedList), sequences, i);
        var ok := Remove(sequences[i]);
        if ok {
          removedCount := removedCount + 1;
        }
        i := i + 1;
      }
      assert sequences[..|sequences|] == sequences;
    }

    /** The longest expired front part: entries are in order of the time they were added. */
    method GetOlderThan(expired: nat -> bool) returns (oldSequences: seq<nat>)
      requires Valid()
      ensures oldSequences <= skippedList
      ensures forall s :: s in oldSequences ==> expired(s)
      ensures |oldSequences| < |skippedList| ==> !expired(skippedList[|oldSequences|])
    {
      oldSequences := [];
      var i := 0;
      while i < |skippedList|
        invariant 0 <= i <= |skippedList| && oldSequences == skippedList[..i]
        invariant forall s :: s in oldSequences ==> expired(s)
      {
        if !expired(skippedList[i]) {
          break;
        }
        oldSequences := oldSequences + [skippedList[i]];
        i := i + 1;
      }
    }
  }

  lemma RemovalStep(s: seq<nat>, sequences: seq<nat>, i: nat)
    requires i < |sequences|
    ensures Without(Without(s, SetOf(sequences[..i])), {sequences[i]}) == Without(s, SetOf(sequences[..i + 1]))
  {
    WithoutTwice(s, SetOf(sequences[..i]), {sequences[i]});
    assert sequences[..i + 1] == sequences[..i] + [sequences[i]];
    assert SetOf(sequences[..i + 1]) == SetOf(sequences[..i]) + {sequences[i]};
  }

  lemma RemovalCount(s: seq<nat>, x: nat)
    requires StrictlyAscending(s)
    ensures |Without(s, {x})| == |s| - if x in s then 1 else 0
  {
    if x in s {
      var i :| 0 <= i < |s| && s[i] == x;
      WithoutOne(s, i);
    } else {
      NoneGone(s, {x});
    }
  }

  lemma LeastUnique(pending: set<Change>, m: Change)
    requires PendingKeyed(pending) && m in pending && forall x :: x in pending ==> m.seqNo <= x.seqNo
    ensures Least(pending) == m
  {
  }

  /** One round of the pending loop. */
  lemma DrainStep(b: Buffer, maxNum: nat, waitedTooLong: nat -> bool, k: nat)
    requires Ahead(b) && b.pending != {}
    ensures var head := Least(b.pending);
      var end := Drained(b, maxNum, waitedTooLong, k);
      if head.seqNo == b.next then
        && Ahead(Popped(b, head)) && |Popped(b, head).pending| < |b.pending|
        && end == Drained(Popped(b, head), maxNum, waitedTooLong, k)
      else if |b.pending| > maxNum || waitedTooLong(k) then
        && Ahead(Skipped(b)) && Skipped(b).next == b.next + 1 <= head.seqNo
        && end == Drained(Skipped(b), maxNum, waitedTooLong, k + 1)
      else end == b
  {
  }

  class ChangeCache {
    var nextSequence: nat
    var initialSequence: nat
    var receivedSeqs: set<nat>
    var pendingLogs: set<Change>
    const skippedSeqs: SkippedSequenceList
    const maxNum: nat
    ghost var additions: seq<Addition>
    ghost var givenUp: set<nat>

    ghost function View(): Buffer
      reads this, skippedSeqs
    {
      Buffer(initialSequence, nextSequence, receivedSeqs, pendingLogs, skippedSeqs.skippedList, additions, givenUp)
    }

    ghost predicate Valid()
      reads this, skippedSeqs
    {
      skippedSeqs.Valid() && Inv(View(), maxNum)
    }

    constructor (maxNum: nat, lastSequence: nat)
      ensures Valid() && fresh(skippedSeqs) && View() == Fresh(lastSequence)
      ensures this.maxNum == maxNum
    {
      this.maxNum := maxNum;
      skippedSeqs := new SkippedSequenceList();
      receivedSeqs, pendingLogs, additions, givenUp := {}, {}, [], {};
      initialSequence := lastSequence;
      nextSequence := lastSequence + 1;
    }

    /** Passes a change on to the channel caches, moving the next sequence past it. */
    method AddToCache(change: Change, ghost kind: Kind)
      modifies this`nextSequence, this`additions
      ensures View() == Cached(old(View()), change, kind)
    {
      if change.seqNo >= nextSequence {
        nextSequence := change.seqNo + 1;
      }
      additions := additions + [Addition(change, kind)];
    }

    method PushSkipped(sequence: nat)
      requires skippedSeqs.Valid()
      modifies skippedSeqs
      ensures skippedSeqs.Valid() && skippedSeqs.skippedList == Pushed(old(skippedSeqs.skippedList), sequence)
    {
      var _ := skippedSeqs.Push(sequence);
    }

    method PopHead(change: Change)
      modifies this`pendingLogs, this`nextSequence, this`additions
      ensures View() == Popped(old(View()), change)
    {
      pendingLogs := pendingLogs - {change};
      AddToCache(change, InOrder);
    }

    method SkipNext()
      requires skippedSeqs.Valid()
      modifies this`nextSequence, skippedSeqs
      ensures skippedSeqs.Valid() && View() == Skipped(old(View()))
    {
      PushSkipped(nextSequence);
      nextSequence := nextSequence + 1;
    }

    /** Adds pending changes as long as they are next; skips the next sequence if it has been waited for too
        long or too much is pending. */
    method AddPendingLogs(waitedTooLong: nat -> bool)
      requires skippedSeqs.Valid() && Ahead(View())
      modifies this, skippedSeqs
      ensures skippedSeqs.Valid()
      ensures View() == Drained(old(View()), maxNum, waitedTooLong, 0)
    {
      ghost var end := Drained(View(), maxNum, waitedTooLong, 0);
      var waits: nat := 0;
      while |pendingLogs| > 0
        invariant skippedSeqs.Valid() && Ahead(View())
        invariant Drained(View(), maxNum, waitedTooLong, waits) == end
        decreases |pendingLogs|, if pendingLogs == {} then 0 else Least(pendingLogs).seqNo - nextSequence
      {
        LeastExists(pendingLogs);
        var change :| change in pendingLogs && forall x :: x in pendingLogs ==> change.seqNo <= x.seqNo;
        LeastUnique(pendingLogs, change);
        DrainStep(View(), maxNum, waitedTooLong, waits);
        if change.seqNo == nextSequence {
          PopHead(change);
        } else if |pendingLogs| > maxNum || waitedTooLong(waits) {
          SkipNext();
          waits := waits + 1;
        } else {
          break;
        }
      }
    }

    /** Handles a newly arrived change. */
    method ProcessEntry(change: Change, waitedTooLong: nat -> bool)
      requires Valid()
      modifies this, skippedSeqs
      ensures Valid()
      ensures View() == Processed(old(View()), change, maxNum, waitedTooLong)
    {
      ProcessKeepsInv(View(), change, maxNum, waitedTooLong);
      BufferEntry(change, waitedTooLong);
    }

    method BufferEntry(change: Change, waitedTooLong: nat -> bool)
      requires skippedSeqs.Valid() && Ordered(View())
      modifies this, skippedSeqs
      ensures skippedSeqs.Valid()
      ensures View() == Processed(old(View()), change, maxNum, waitedTooLong)
    {
      var sequence := change.seqNo;
      if sequence in receivedSeqs {
        return;
      }
      receivedSeqs := receivedSeqs + {sequence};
      if sequence == nextSequence || nextSequence == 0 {
        AddToCache(change, InOrder);
        AddPendingLogs(waitedTooLong);
      } else if sequence > nextSequence {
        pendingLogs := pendingLogs + {change};
        if |pendingLogs| > maxNum {
          AddPendingLogs(waitedTooLong);
        }
      } else if sequence > initialSequence {
        AddLate(change);
      }
    }

    /** A sequence below the next one: cached before it is taken off the skipped list. */
    method AddLate(change: Change)
      requires skippedSeqs.Valid()
      modifies this, skippedSeqs
      ensures skippedSeqs.Valid() && View() == TakenLate(old(View()), change)
    {
      var wasSkipped := skippedSeqs.Contains(change.seqNo);
      AddToCache(change, if wasSkipped then Late else Unexpected);
      var _ := skippedSeqs.Remove(change.seqNo);
    }

    method InsertPendingEntries(waitedTooLong: nat -> bool)
      requires Valid()
      modifies this, skippedSeqs
      ensures Valid() && View() == Drained(old(View()), maxNum, waitedTooLong, 0)
    {
      DrainKeepsInv(View(), maxNum, waitedTooLong, 0);
      AddPendingLogs(waitedTooLong);
    }

    /** Gives up on skipped sequences that could not be found. */
    method RemoveSkippedSequences(sequences: seq<nat>) returns (removedCount: nat)
      requires Valid()
      modifies this, skippedSeqs
      ensures Valid() && View() == GivenUp(old(View()), SetOf(sequences))
      ensures removedCount == |old(skippedSeqs.skippedList)| - |skippedSeqs.skippedList|
    {
      AbandonBooks(View(), SetOf(sequences));
      givenUp := givenUp + (set s | s in skippedSeqs.skippedList && s in sequences);
      removedCount := skippedSeqs.RemoveSequences(sequences);
    }

    /** The last sequence the cache is up to date with: everything up to it, and nothing past it, has been cached,
        skipped or given up, and whatever is pending lies past the sequence after it. */
    method LastSequence() returns (last: nat)
      requires Valid()
      ensures forall s :: View().initial < s <= last <==>
        s in CachedSeqs(View().additions) || s in View().skipped || s in View().givenUp
      ensures forall c :: c in View().pending ==> last + 1 < c.seqNo
    {
      last := nextSequence - 1;
    }
  }
}
