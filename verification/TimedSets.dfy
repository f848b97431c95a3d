/** Timed sets (channels/timed_set.go): channels with the sequence at which each was added, and how they merge. */
module TimedSets {
  import opened Options
  import opened Numbers

  type Uint64 = n: nat | n <= MAX_UINT64
  type VbNo = n: nat | n <= MAX_UINT16

  /** The channel that stands for all channels. */
  const STAR: string := "*"

  datatype VbSequence = VbSequence(vbNo: Option<VbNo>, sequence: Uint64)

  type TimedEntries = map<string, VbSequence>

  function Simple(sequence: Uint64): VbSequence {
    VbSequence(None, sequence)
  }

  function Lookup(set': TimedEntries, channel: string): Option<VbSequence> {
    if channel in set' then Some(set'[channel]) else None
  }

  // ---- one channel

  /** The sequence of an entry, zero if there is none. */
  function SequenceOf(entry: Option<VbSequence>): Uint64 {
    match entry
    case None => 0
    case Some(v) => v.sequence
  }

  function Later(a: Uint64, b: Uint64): Uint64 {
    if a < b then b else a
  }

  predicate Earlier(at: Uint64, entry: Option<VbSequence>) {
    at > 0 && (SequenceOf(entry) == 0 || at < SequenceOf(entry))
  }

  function AddedEntry(entry: Option<VbSequence>, at: Uint64): Option<VbSequence> {
    if Earlier(at, entry) then Some(Simple(at)) else entry
  }

  function MergedEntry(entry: Option<VbSequence>, other: Option<VbSequence>, at: Uint64): Option<VbSequence> {
    match other
    case None => entry
    case Some(v) => if v.vbNo.Some? then other else AddedEntry(entry, Later(v.sequence, at))
  }

  // ---- whole sets

  /** `merged` is `set'` with `other` merged in, channel by channel. */
  ghost predicate IsMerge(merged: TimedEntries, set': TimedEntries, other: TimedEntries, at: Uint64) {
    forall channel :: Lookup(merged, channel) == MergedEntry(Lookup(set', channel), Lookup(other, channel), at)
  }

  ghost predicate HasVbNo(other: TimedEntries) {
    exists channel :: channel in other && other[channel].vbNo.Some?
  }

  class TimedSet {
    var entries: TimedEntries

    constructor (initial: TimedEntries)
      ensures entries == initial
    {
      entries := initial;
    }

    method AddChannel(channelName: string, atSequence: Uint64) returns (changed: bool)
      modifies this
      ensures entries == if changed then old(entries)[channelName := Simple(atSequence)] else old(entries)
      ensures changed <==> (
        && 0 < atSequence
        && (channelName in old(entries) ==>
              old(entries)[channelName].sequence == 0 || atSequence < old(entries)[channelName].sequence))
    {
      if atSequence > 0 {
        var oldSequence := if channelName in entries then entries[channelName] else Simple(0);
        if oldSequence.sequence == 0 || atSequence < oldSequence.sequence {
          entries := entries[channelName := Simple(atSequence)];
          return true;
        }
      }
      return false;
    }

    /** Merges another set in, taking its channels in any order. */
    method AddAtSequence(other: TimedEntries, atSequence: Uint64) returns (changed: bool)
      modifies this
      ensures IsMerge(entries, old(entries), other, atSequence)
      ensures changed <==> HasVbNo(other) || entries != old(entries)
    {
      changed := false;
      ghost var before := entries;
      ghost var done: TimedEntries := map[];
      var todo := other.Keys;
      while todo != {}
        invariant todo <= other.Keys && done.Keys == other.Keys - todo
        invariant forall channel :: channel in done ==> done[channel] == other[channel]
        invariant IsMerge(entries, before, done, atSequence)
        invariant changed <==> HasVbNo(done) || entries != before
        decreases |todo|
      {
        var channel :| channel in todo;
        ghost var previous := entries;
        var vbSeq := other[channel];
        assert Lookup(entries, channel) == Lookup(before, channel);
        if vbSeq.vbNo.Some? {
          entries := entries[channel := vbSeq];
          changed := true;
        } else {
          if vbSeq.sequence < atSequence {
            vbSeq := vbSeq.(sequence := atSequence);
          }
          var added := AddChannel(channel, vbSeq.sequence);
          if added {
            changed := true;
          }
        }
        MergeStep(before, previous, entries, done, channel, other[channel], atSequence);
        todo := todo - {channel};
        done := done[channel := other[channel]];
      }
      assert done == other;
    }

    /** The earliest sequence wins. */
    method Add(other: TimedEntries) returns (changed: bool)
      modifies this
      ensures IsMerge(entries, old(entries), other, 0)
      ensures changed <==> HasVbNo(other) || entries != old(entries)
    {
      changed := AddAtSequence(other, 0);
    }
  }

  /** What a merge means for a channel: one with a vbucket replaces; one without counts from no earlier than `at`, and
      then the earliest sequence wins, a zero being none. */
  lemma MergeMeans(merged: TimedEntries, set': TimedEntries, other: TimedEntries, at: Uint64, channel: string)
    requires IsMerge(merged, set', other, at)
    ensures channel !in other ==> Lookup(merged, channel) == Lookup(set', channel)
    ensures channel in other && other[channel].vbNo.Some? ==> channel in merged && merged[channel] == other[channel]
    ensures channel in other && other[channel].vbNo.None? ==>
      var since := if other[channel].sequence < at then at else other[channel].sequence;
      if 0 < since && (channel !in set' || set'[channel].sequence == 0 || since < set'[channel].sequence)
      then channel in merged && merged[channel] == VbSequence(None, since)
      else Lookup(merged, channel) == Lookup(set', channel)
  {
    assert Lookup(merged, channel) == MergedEntry(Lookup(set', channel), Lookup(other, channel), at);
  }

  lemma MergeStep(before: TimedEntries, previous: TimedEntries, next: TimedEntries, done: TimedEntries,
                  channel: string, v: VbSequence, at: Uint64)
    requires channel !in done && IsMerge(previous, before, done, at)
    requires var e := MergedEntry(Lookup(before, channel), Some(v), at);
      if e == Lookup(before, channel) then next == previous else e.Some? && next == previous[channel := e.value]
    ensures IsMerge(next, before, done[channel := v], at)
    ensures HasVbNo(done[channel := v]) <==> HasVbNo(done) || v.vbNo.Some?
    ensures next != before <==> previous != before || next != previous
  {
    var done' := done[channel := v];
    forall c
      ensures Lookup(next, c) == MergedEntry(Lookup(before, c), Lookup(done', c), at)
    {
      assert Lookup(previous, c) == MergedEntry(Lookup(before, c), Lookup(done, c), at);
    }
    if v.vbNo.Some? {
      assert done'[channel].vbNo.Some?;
    }
    if c :| c in done && done[c].vbNo.Some? {
      assert done'[c].vbNo.Some?;
    }
    if next != previous {
      assert Lookup(next, channel) != Lookup(before, channel);
    }
  }
}
