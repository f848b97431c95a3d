/** Unsigned limits, and sequences of numbers. */
module Numbers {

  const MAX_UINT16: nat := 0xFFFF
  const MAX_UINT64: nat := 0xFFFF_FFFF_FFFF_FFFF

  predicate StrictlyAscending(s: seq<nat>) {
    forall i, j :: 0 <= i < j < |s| ==> s[i] < s[j]
  }

  function SetOf(s: seq<nat>): set<nat> {
    set x | x in s
  }
}
