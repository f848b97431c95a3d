/** Vbucket sequences (base/sharded_sequence_clock.go:111-165), ordered by vbucket, then by sequence. */
module VbSeqs {

  datatype VbSeq = VbSeq(vb: nat, sequence: nat)

  datatype CompareResult = LessThan | Equals | GreaterThan

  function CompareVbSequence(s1: VbSeq, s2: VbSeq): CompareResult {
    if s1.vb < s2.vb then LessThan
    else if s1.vb > s2.vb then GreaterThan
    else if s1.sequence < s2.sequence then LessThan
    else if s1.sequence > s2.sequence then GreaterThan
    else Equals
  }

  predicate Before(s1: VbSeq, s2: VbSeq) {
    CompareVbSequence(s1, s2) == LessThan
  }

  /** No sequence at all. */
  const NoSeq: VbSeq := VbSeq(0, 0)

  /** When `v` gives way to `other`: it is empty, or `other` comes before it. */
  predicate GivesWay(v: VbSeq, other: VbSeq) {
    v.sequence == 0 || Before(other, v)
  }

  function ClockSequence(clock: map<nat, nat>, vb: nat): nat {
    if vb in clock then clock[vb] else 0
  }

  predicate LessThanOrEqualsClock(v: VbSeq, clock: map<nat, nat>) {
    v.sequence != 0 && v.sequence <= ClockSequence(clock, v.vb)
  }
}
