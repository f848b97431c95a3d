/** Sequence numbers of document updates across compare-and-swap retries (db/crud.go:918-1054, 1250-1263).
    Writers run concurrently; each may allocate several sequence numbers before its write succeeds. None may
    be lost: a gap in the sequence would hold up every changes feed. */
module SequenceAccounting {
  import opened Numbers

  /** The stored sequence data of a document; a missing one is Doc(0, [], 0). */
  datatype Doc = Doc(sequence: nat, unused: seq<nat>, cas: nat)

  /** Where a writer is: about to (re)load the document, in the allocation loop for a loaded document, ready to
      write, or done. */
  datatype Phase = Loading | Allocating(base: Doc) | Ready(base: Doc) | Done

  /** docSequence and unusedSequences live across retries. */
  datatype Writer = Writer(docID: string, docSequence: nat, unused: seq<nat>, phase: Phase)

  // ---- what one writer does

  /** Is the sequence allocated in an earlier round still usable for the document as it is now? */
  predicate NeedsSequence(docSequence: nat, base: Doc) {
    docSequence <= base.sequence
  }

  /** The sequences given up when a new one is needed. */
  function NowUnused(docSequence: nat, unused: seq<nat>): seq<nat> {
    if docSequence > 0 then unused + [docSequence] else unused
  }

  /** Everything a failed update has to release, in order. */
  function ToRelease(docSequence: nat, unused: seq<nat>): seq<nat> {
    (if docSequence > 0 then [docSequence] else []) + unused
  }

  /** The sequence numbers allocated for one update call, kept outside the retried callback. */
  class SequenceHolder {
    var docSequence: nat
    var unusedSequences: seq<nat>

    constructor ()
      ensures docSequence == 0 && unusedSequences == []
    {
      docSequence, unusedSequences := 0, [];
    }

    /** Sequence processing in the callback. The allocator gives out `allocations` in order and then fails;
        numbers that are too small are released at once. */
    method AssignSequence(doc: Doc, allocations: seq<nat>) returns (updated: Doc, released: seq<nat>, err: bool)
      modifies this
      ensures !NeedsSequence(old(docSequence), doc) ==>
        && !err && released == [] && docSequence == old(docSequence) && unusedSequences == old(unusedSequences)
      ensures NeedsSequence(old(docSequence), doc) ==>
        && unusedSequences == NowUnused(old(docSequence), old(unusedSequences))
        && released <= allocations && (forall n :: n in released ==> n <= doc.sequence)
        && (err ==> docSequence == 0 && released == allocations)
        && (!err ==> |released| < |allocations| && docSequence == allocations[|released|])
      ensures !err ==> doc.sequence < docSequence
      ensures !err ==> updated == doc.(sequence := docSequence, unused := unusedSequences)
      ensures !err ==> ListedIn(updated) == SetOf(ToRelease(docSequence, unusedSequences))
    {
      released, err, updated := [], false, doc;
      if docSequence <= doc.sequence {
        if docSequence > 0 {
          unusedSequences := unusedSequences + [docSequence];
        }
        var i := 0;
        while true
          invariant 0 <= i <= |allocations| && released == allocations[..i]
          invariant forall n :: n in released ==> n <= doc.sequence
          invariant unusedSequences == NowUnused(old(docSequence), old(unusedSequences))
          invariant !err
          decreases |allocations| - i
        {
          if i == |allocations| {
            docSequence := 0;
            err := true;
            return;
          }
          docSequence := allocations[i];
          if docSequence > doc.sequence {
            break;
          }
          released := released + [docSequence];
          i := i + 1;
        }
      }
      updated := doc.(sequence := docSequence, unused := unusedSequences);
      assert ToRelease(docSequence, unusedSequences) == [docSequence] + unusedSequences;
    }

    /** After a failed write everything allocated is released. */
    method ReleaseAll() returns (released: seq<nat>)
      ensures released == ToRelease(docSequence, unusedSequences)
    {
      released := [];
      if docSequence > 0 {
        released := released + [docSequence];
      }
      var i := 0;
      while i < |unusedSequences|
        invariant 0 <= i <= |unusedSequences|
        invariant released == (if docSequence > 0 then [docSequence] else []) + unusedSequences[..i]
      {
        released := released + [unusedSequences[i]];
        i := i + 1;
      }
    }
  }

  // ---- all writers together

  /** `recorded` is what committed documents have listed as their sequence or as unused; `released` was
      announced as unused on its own; `unreleased` could not be (a logged failure); `overwritten` is recorded
      as well as released, because the store reported an overwritten write as an error. */
  datatype State = State(
    docs: map<string, Doc>,
    writers: map<nat, Writer>,
    issued: set<nat>,
    recorded: set<nat>,
    released: set<nat>,
    unreleased: set<nat>,
    overwritten: set<nat>)

  datatype Step =
    | Begin(w: nat, docID: string)
    | Load(w: nat)
    | Allocate(w: nat, n: nat, releaseOk: bool)
    | Commit(w: nat, cas: nat)
    | Retry(w: nat)
    | CommitOverwritten(w: nat, cas: nat, failed: set<nat>)
    | Fail(w: nat, failed: set<nat>)

  function Stored(s: State, docID: string): Doc {
    if docID in s.docs then s.docs[docID] else Doc(0, [], 0)
  }

  function Held(w: Writer): set<nat> {
    if w.phase.Done? then {} else (if w.docSequence > 0 then {w.docSequence} else {}) + SetOf(w.unused)
  }

  function Loaded(w: Writer, base: Doc): Writer {
    if NeedsSequence(w.docSequence, base)
    then w.(docSequence := 0, unused := NowUnused(w.docSequence, w.unused), phase := Allocating(base))
    else w.(phase := Ready(base))
  }

  /** One step of one writer. A release can fail, but then the sequence is known not to have been announced. */
  ghost predicate Next(s: State, step: Step, s': State) {
    match step
    case Begin(w, docID) =>
      w !in s.writers && s' == s.(writers := s.writers[w := Writer(docID, 0, [], Loading)])
    case Load(w) =>
      && w in s.writers && s.writers[w].phase.Loading?
      && s' == s.(writers := s.writers[w := Loaded(s.writers[w], Stored(s, s.writers[w].docID))])
    case Allocate(w, n, releaseOk) =>
      // the allocator never gives out a number twice
      && w in s.writers && s.writers[w].phase.Allocating? && 0 < n && n !in s.issued
      && s' == AfterAllocation(s, w, n, releaseOk)
    case Commit(w, cas) =>
      CanWrite(s, w, cas) && s' == Written(s, w, cas)
    case Retry(w) =>
      && w in s.writers && s.writers[w].phase.Ready?
      && Stored(s, s.writers[w].docID).cas != s.writers[w].phase.base.cas
      && s' == s.(writers := s.writers[w := s.writers[w].(phase := Loading)])
    case CommitOverwritten(w, cas, failed) =>
      && CanWrite(s, w, cas)
      && s' == Written(s, w, cas).(released := s.released + (Held(s.writers[w]) - failed),
                                   unreleased := s.unreleased + (Held(s.writers[w]) * failed),
                                   overwritten := s.overwritten + Held(s.writers[w]))
    case Fail(w, failed) =>
      && w in s.writers && !s.writers[w].phase.Done?
      && s' == s.(writers := s.writers[w := s.writers[w].(phase := Done)],
                  released := s.released + (Held(s.writers[w]) - failed),
                  unreleased := s.unreleased + (Held(s.writers[w]) * failed))
  }

  function AfterAllocation(s: State, w: nat, n: nat, releaseOk: bool): State
    requires w in s.writers && s.writers[w].phase.Allocating?
  {
    var writer := s.writers[w];
    var s1 := s.(issued := s.issued + {n});
    if n > writer.phase.base.sequence then
      s1.(writers := s.writers[w := writer.(docSequence := n, phase := Ready(writer.phase.base))])
    else if releaseOk then s1.(released := s.released + {n})
    else s1.(unreleased := s.unreleased + {n})
  }

  ghost predicate CanWrite(s: State, w: nat, cas: nat) {
    && w in s.writers && s.writers[w].phase.Ready?
    && Stored(s, s.writers[w].docID).cas == s.writers[w].phase.base.cas < cas
  }

  function Written(s: State, w: nat, cas: nat): State
    requires w in s.writers
  {
    var writer := s.writers[w];
    s.(docs := s.docs[writer.docID := Doc(writer.docSequence, writer.unused, cas)],
       writers := s.writers[w := writer.(phase := Done)],
       recorded := s.recorded + Held(writer))
  }

  // ---- the books

  function Settled(s: State): set<nat> {
    s.recorded + s.released + s.unreleased
  }

  ghost predicate HeldBySomeone(s: State, n: nat) {
    exists w :: w in s.writers && n in Held(s.writers[w])
  }

  /** Every allocated sequence is held by one writer or settled, and never both. */
  ghost predicate Accounted(s: State) {
    && Settled(s) <= s.issued
    && (forall n :: n in s.issued ==> n in Settled(s) || HeldBySomeone(s, n))
    && (forall w :: w in s.writers ==> Held(s.writers[w]) <= s.issued - Settled(s))
    && (forall v, w :: v in s.writers && w in s.writers && v != w ==> Held(s.writers[v]) !! Held(s.writers[w]))
  }

  /** What is both recorded and released, or meant to be released, is what overwritten writes held. */
  ghost predicate Exclusive(s: State) {
    && s.recorded * (s.released + s.unreleased) == s.overwritten
    && s.released * s.unreleased == {}
  }

  ghost predicate WriterOk(w: Writer) {
    && StrictlyAscending(w.unused)
    && (forall n :: n in w.unused ==> 0 < n)
    && (match w.phase
        case Loading => forall n :: n in w.unused ==> n < w.docSequence
        case Allocating(base) => w.docSequence == 0 && forall n :: n in w.unused ==> n <= base.sequence
        case Ready(base) => base.sequence < w.docSequence && forall n :: n in w.unused ==> n < w.docSequence
        case Done => true)
  }

  /** A document version is identified by its cas: what a writer loaded is still there if the cas is. */
  ghost predicate BaseOk(s: State, w: Writer) {
    (w.phase.Allocating? || w.phase.Ready?) ==>
      && w.phase.base.cas <= Stored(s, w.docID).cas
      && (w.phase.base.cas == Stored(s, w.docID).cas ==> w.phase.base == Stored(s, w.docID))
  }

  ghost predicate DocOk(d: Doc) {
    StrictlyAscending(d.unused) && forall n :: n in d.unused ==> n < d.sequence
  }

  ghost predicate Sane(s: State) {
    && (forall w :: w in s.writers ==> WriterOk(s.writers[w]) && BaseOk(s, s.writers[w]))
    && (forall d :: d in s.docs ==> DocOk(s.docs[d]))
  }

  ghost predicate Inv(s: State) {
    Accounted(s) && Exclusive(s) && Sane(s)
  }

  /** How the books move in any step: one writer turns some of what it holds, and what it newly allocates, into
      settled sequences. */
  lemma BooksMove(s: State, s': State, w: nat, writer: Writer, gained: set<nat>, out: set<nat>)
    requires Accounted(s) && gained !! s.issued
    requires s'.writers == s.writers[w := writer] && s'.issued == s.issued + gained
    requires Settled(s') == Settled(s) + out
    requires var before := if w in s.writers then Held(s.writers[w]) else {};
      Held(writer) + out == before + gained && Held(writer) !! out
    ensures Accounted(s')
  {
    var before := if w in s.writers then Held(s.writers[w]) else {};
    forall n | n in s'.issued && n !in Settled(s')
      ensures HeldBySomeone(s', n)
    {
      if n in before + gained {
        assert w in s'.writers && n in Held(s'.writers[w]);
      } else {
        assert HeldBySomeone(s, n);
        var v :| v in s.writers && n in Held(s.writers[v]);
        assert v != w && v in s'.writers && n in Held(s'.writers[v]);
      }
    }
    forall v | v in s'.writers
      ensures Held(s'.writers[v]) <= s'.issued - Settled(s')
    {
      if v != w && w in s.writers {
        assert Held(s.writers[v]) !! Held(s.writers[w]);
      }
    }
    forall v | v in s'.writers && v != w
      ensures Held(s'.writers[v]) !! Held(writer)
    {
      if w in s.writers {
        assert Held(s.writers[v]) !! Held(s.writers[w]);
      }
    }
  }

  lemma LoadedHolds(w: Writer, base: Doc)
    requires w.phase.Loading?
    ensures Held(Loaded(w, base)) == Held(w)
  {
    if NeedsSequence(w.docSequence, base) && w.docSequence > 0 {
      assert SetOf(w.unused + [w.docSequence]) == SetOf(w.unused) + {w.docSequence};
    }
  }

  lemma {:induction false} StepAccounts(s: State, step: Step, s': State)
    requires Accounted(s) && Exclusive(s) && Next(s, step, s')
    requires step.Allocate? && step.w in s.writers && s.writers[step.w].phase.Allocating? ==>
      s.writers[step.w].docSequence == 0
    ensures Accounted(s')
  {
    match step
    case Begin(w, docID) =>
      assert SetOf([]) == {};
      BooksMove(s, s', w, Writer(docID, 0, [], Loading), {}, {});
    case Load(w) =>
      LoadedHolds(s.writers[w], Stored(s, s.writers[w].docID));
      BooksMove(s, s', w, s'.writers[w], {}, {});
    case Allocate(w, n, releaseOk) => AllocateAccounts(s, s', w, n, releaseOk);
    case Retry(w) => BooksMove(s, s', w, s'.writers[w], {}, {});
    case Commit(w, cas) => DoneAccounts(s, s', w);
    case CommitOverwritten(w, cas, failed) => DoneAccounts(s, s', w);
    case Fail(w, failed) => DoneAccounts(s, s', w);
  }

  lemma AllocateAccounts(s: State, s': State, w: nat, n: nat, releaseOk: bool)
    requires Accounted(s) && w in s.writers && s.writers[w].phase.Allocating? && s.writers[w].docSequence == 0
    requires 0 < n && n !in s.issued && s' == AfterAllocation(s, w, n, releaseOk)
    ensures Accounted(s')
  {
    if n > s.writers[w].phase.base.sequence {
      BooksMove(s, s', w, s'.writers[w], {n}, {});
    } else {
      assert s'.writers == s.writers[w := s.writers[w]];
      BooksMove(s, s', w, s.writers[w], {n}, {n});
    }
  }

  /** A writer that is done has settled all it held. */
  lemma DoneAccounts(s: State, s': State, w: nat)
    requires Accounted(s) && w in s.writers
    requires s'.writers == s.writers[w := s.writers[w].(phase := Done)] && s'.issued == s.issued
    requires Settled(s') == Settled(s) + Held(s.writers[w])
    ensures Accounted(s')
  {
    BooksMove(s, s', w, s'.writers[w], {}, Held(s.writers[w]));
  }

  lemma StepExclusive(s: State, step: Step, s': State)
    requires Accounted(s) && Exclusive(s) && Next(s, step, s')
    ensures Exclusive(s')
  {
    if !step.Begin? && step.w in s.writers {
      assert Held(s.writers[step.w]) <= s.issued - Settled(s);
    }
  }

  lemma LoadOk(w: Writer, base: Doc)
    requires WriterOk(w) && w.phase.Loading?
    ensures WriterOk(Loaded(w, base))
  {
    if NeedsSequence(w.docSequence, base) && w.docSequence > 0 {
      var unused := w.unused + [w.docSequence];
      forall i | 0 <= i < |w.unused|
        ensures w.unused[i] < w.docSequence
      {
        assert w.unused[i] in w.unused;
      }
      assert forall n :: n in unused ==> n in w.unused || n == w.docSequence;
    }
  }

  /** What one step makes of a writer keeps its sequences in order. */
  lemma StepWriters(s: State, step: Step, s': State, w: nat)
    requires Sane(s) && Next(s, step, s') && w in s'.writers
    ensures WriterOk(s'.writers[w])
  {
    if w in s.writers {
      assert WriterOk(s.writers[w]);
      if step == Load(w) {
        LoadOk(s.writers[w], Stored(s, s.writers[w].docID));
      }
    }
  }

  lemma StepBases(s: State, step: Step, s': State, w: nat)
    requires Sane(s) && Next(s, step, s') && w in s'.writers
    ensures BaseOk(s', s'.writers[w])
  {
    if w in s.writers {
      assert BaseOk(s, s.writers[w]);
    }
  }

  /** A committed document's sequence strictly increases, and its unused list is strictly ascending and below it. */
  lemma CommitOrdered(s: State, w: nat, cas: nat)
    requires Inv(s) && CanWrite(s, w, cas)
    ensures var docID := s.writers[w].docID;
      && docID in Written(s, w, cas).docs
      && Stored(s, docID).sequence < Written(s, w, cas).docs[docID].sequence
      && DocOk(Written(s, w, cas).docs[docID])
  {
    assert WriterOk(s.writers[w]) && BaseOk(s, s.writers[w]);
  }

  lemma StepDocs(s: State, step: Step, s': State, d: string)
    requires Inv(s) && Next(s, step, s') && d in s'.docs
    ensures DocOk(s'.docs[d])
  {
    if step.Commit? || step.CommitOverwritten? {
      CommitOrdered(s, step.w, step.cas);
    }
  }

  lemma StepInv(s: State, step: Step, s': State)
    requires Inv(s) && Next(s, step, s')
    ensures Inv(s')
  {
    if step.Allocate? {
      assert WriterOk(s.writers[step.w]);
    }
    StepAccounts(s, step, s');
    StepExclusive(s, step, s');
    forall w | w in s'.writers
      ensures WriterOk(s'.writers[w]) && BaseOk(s', s'.writers[w])
    {
      StepWriters(s, step, s', w);
      StepBases(s, step, s', w);
    }
    forall d | d in s'.docs
      ensures DocOk(s'.docs[d])
    {
      StepDocs(s, step, s', d);
    }
  }

  // ---- runs

  /** Documents may exist already; the sequences issued so far are settled in them or elsewhere. */
  ghost predicate Init(s: State) {
    && s.writers == map[] && s.released == {} && s.unreleased == {} && s.overwritten == {}
    && s.issued == s.recorded
    && forall d :: d in s.docs ==> DocOk(s.docs[d])
  }

  ghost predicate IsRun(run: seq<State>, steps: seq<Step>) {
    && |run| == |steps| + 1 && Init(run[0])
    && forall i :: 0 <= i < |steps| ==> Next(run[i], steps[i], run[i + 1])
  }

  lemma {:induction false} AlwaysInv(run: seq<State>, steps: seq<Step>, k: nat)
    requires IsRun(run, steps) && k < |run|
    ensures Inv(run[k])
  {
    if k > 0 {
      AlwaysInv(run, steps, k - 1);
      StepInv(run[k - 1], steps[k - 1], run[k]);
    }
  }

  /** In any interleaving of writers, at all times, every issued sequence is held by exactly one writer still at
      work, recorded in a committed document, released, or reported as impossible to release. */
  lemma NoSequenceLost(run: seq<State>, steps: seq<Step>, k: nat, n: nat)
    requires IsRun(run, steps) && k < |run| && n in run[k].issued
    ensures var s := run[k];
      && (n in Settled(s) <==> !HeldBySomeone(s, n))
      && (forall v, w :: v in s.writers && w in s.writers ==>
            n in Held(s.writers[v]) && n in Held(s.writers[w]) ==> v == w)
      && (n in s.recorded && n in s.released + s.unreleased <==> n in s.overwritten)
  {
    AlwaysInv(run, steps, k);
  }

  // ---- what documents say

  /** The sequences a stored document accounts for. */
  function ListedIn(d: Doc): set<nat> {
    {d.sequence} + SetOf(d.unused)
  }

  predicate IsCommit(step: Step) {
    step.Commit? || step.CommitOverwritten?
  }

  /** A successful write, reported as overwritten or not, stores a document that lists exactly the sequences its writer
      held, under the new cas, and touches no other document. */
  lemma CommitLists(s: State, step: Step, s': State)
    requires Inv(s) && Next(s, step, s') && IsCommit(step)
    ensures step.w in s.writers && s.writers[step.w].docID in s'.docs
    ensures var docID := s.writers[step.w].docID;
      && ListedIn(s'.docs[docID]) == Held(s.writers[step.w])
      && s'.docs[docID].cas == step.cas
      && forall d :: d != docID ==> (d in s'.docs <==> d in s.docs) && (d in s.docs ==> s'.docs[d] == s.docs[d])
  {
    assert WriterOk(s.writers[step.w]);
  }

  /** So it is in every run. */
  lemma StoredIsHeld(run: seq<State>, steps: seq<Step>, k: nat)
    requires IsRun(run, steps) && k < |steps| && IsCommit(steps[k])
    ensures steps[k].w in run[k].writers && run[k].writers[steps[k].w].docID in run[k + 1].docs
    ensures ListedIn(run[k + 1].docs[run[k].writers[steps[k].w].docID]) == Held(run[k].writers[steps[k].w])
  {
    AlwaysInv(run, steps, k);
    CommitLists(run[k], steps[k], run[k + 1]);
  }

  /** The j-th step stores a document that lists n. */
  ghost predicate ListsAt(run: seq<State>, steps: seq<Step>, j: nat, n: nat)
    requires |run| == |steps| + 1 && j < |steps|
  {
    && IsCommit(steps[j]) && steps[j].w in run[j].writers
    && run[j].writers[steps[j].w].docID in run[j + 1].docs
    && n in ListedIn(run[j + 1].docs[run[j].writers[steps[j].w].docID])
  }

  /** Recorded means written into a document: exactly those that some write stored, besides those from the start. */
  lemma {:induction false} RecordedIsListed(run: seq<State>, steps: seq<Step>, k: nat, n: nat)
    requires IsRun(run, steps) && k < |run|
    ensures n in run[k].recorded <==> n in run[0].recorded || exists j :: 0 <= j < k && ListsAt(run, steps, j, n)
  {
    if k > 0 {
      RecordedIsListed(run, steps, k - 1, n);
      RecordedStep(run, steps, k - 1, n);
    }
  }

  lemma RecordedStep(run: seq<State>, steps: seq<Step>, k: nat, n: nat)
    requires IsRun(run, steps) && k < |steps|
    ensures n in run[k + 1].recorded <==> n in run[k].recorded || ListsAt(run, steps, k, n)
  {
    assert Next(run[k], steps[k], run[k + 1]);
    if IsCommit(steps[k]) {
      StoredIsHeld(run, steps, k);
    }
  }

  /** Nothing issued in a run is lost, told from the documents written: each such sequence is held by a writer still at
      work, listed in a document when that was written, released, or known to be impossible to release. */
  lemma NothingLost(run: seq<State>, steps: seq<Step>, k: nat, n: nat)
    requires IsRun(run, steps) && k < |run| && n in run[k].issued && n !in run[0].issued
    ensures HeldBySomeone(run[k], n) || n in run[k].released || n in run[k].unreleased
      || exists j :: 0 <= j < k && ListsAt(run, steps, j, n)
  {
    NoSequenceLost(run, steps, k, n);
    RecordedIsListed(run, steps, k, n);
  }

  /** The store reported a successful write as overwritten while its writer held the sequence. */
  ghost predicate Overwrites(s: State, step: Step, n: nat) {
    step.CommitOverwritten? && step.w in s.writers && n in Held(s.writers[step.w])
  }

  /** A sequence is booked twice, as recorded and as released (or as meant to be), exactly if some earlier write that
      held it was reported as overwritten. */
  lemma DoublyBookedIff(run: seq<State>, steps: seq<Step>, k: nat, n: nat)
    requires IsRun(run, steps) && k < |run|
    ensures n in run[k].recorded && n in run[k].released + run[k].unreleased <==>
      exists j :: 0 <= j < k && Overwrites(run[j], steps[j], n)
  {
    AlwaysInv(run, steps, k);
    OverwrittenIff(run, steps, k, n);
  }

  lemma {:induction false} OverwrittenIff(run: seq<State>, steps: seq<Step>, k: nat, n: nat)
    requires IsRun(run, steps) && k < |run|
    ensures n in run[k].overwritten <==> exists j :: 0 <= j < k && Overwrites(run[j], steps[j], n)
  {
    if k > 0 {
      OverwrittenIff(run, steps, k - 1, n);
      assert Next(run[k - 1], steps[k - 1], run[k]);
      assert n in run[k].overwritten <==> n in run[k - 1].overwritten || Overwrites(run[k - 1], steps[k - 1], n);
    }
  }

  /** One writer, one write, reported as overwritten: its sequence is in the document and announced as unused. */
  lemma OverwrittenIsBookedTwice()
    ensures IsRun(TwiceRun(), TwiceSteps())
    ensures 1 in TwiceRun()[4].recorded && 1 in TwiceRun()[4].released
    ensures TwiceRun()[4].docs == map["a" := Doc(1, [], 1)]
  {
    forall i | 0 <= i < 4
      ensures Next(TwiceRun()[i], TwiceSteps()[i], TwiceRun()[i + 1])
    {
      TwiceNext(i);
    }
  }

  ghost function TwiceSteps(): seq<Step> {
    [Begin(0, "a"), Load(0), Allocate(0, 1, true), CommitOverwritten(0, 1, {})]
  }

  ghost function TwiceRun(): seq<State> {
    seq(5, i requires 0 <= i < 5 => TwiceState(i))
  }

  ghost function TwiceState(i: nat): State {
    var none := Doc(0, [], 0);
    var waiting := State(map[], map[0 := Writer("a", 0, [], Loading)], {}, {}, {}, {}, {});
    match i
    case 0 => waiting.(writers := map[])
    case 1 => waiting
    case 2 => waiting.(writers := map[0 := Writer("a", 0, [], Allocating(none))])
    case 3 => waiting.(writers := map[0 := Writer("a", 1, [], Ready(none))], issued := {1})
    case _ => State(map["a" := Doc(1, [], 1)], map[0 := Writer("a", 1, [], Done)], {1}, {1}, {1}, {}, {1})
  }

  lemma TwiceNext(i: nat)
    requires i < 4
    ensures Next(TwiceState(i), TwiceSteps()[i], TwiceState(i + 1))
  {
    assert Held(Writer("a", 1, [], Ready(Doc(0, [], 0)))) == {1};
  }

  /** Once all writers are done and no release has failed, every issued sequence is recorded or released. */
  lemma AllSettledInTheEnd(run: seq<State>, steps: seq<Step>, k: nat)
    requires IsRun(run, steps) && k < |run|
    requires forall w :: w in run[k].writers ==> run[k].writers[w].phase.Done?
    requires run[k].unreleased == {}
    ensures run[k].issued == run[k].recorded + run[k].released
  {
    AlwaysInv(run, steps, k);
    forall n | n in run[k].issued
      ensures n in run[k].recorded + run[k].released
    {
      assert !HeldBySomeone(run[k], n);
    }
  }

  /** Every write of a document, in every run, raises its sequence and lists unused sequences in order below it. */
  lemma SequencesIncrease(run: seq<State>, steps: seq<Step>, k: nat)
    requires IsRun(run, steps) && k < |steps| && (steps[k].Commit? || steps[k].CommitOverwritten?)
    ensures steps[k].w in run[k].writers
    ensures var docID := run[k].writers[steps[k].w].docID;
      && docID in run[k + 1].docs
      && Stored(run[k], docID).sequence < run[k + 1].docs[docID].sequence
      && DocOk(run[k + 1].docs[docID])
  {
    AlwaysInv(run, steps, k);
    assert Next(run[k], steps[k], run[k + 1]);
    CommitOrdered(run[k], steps[k].w, steps[k].cas);
  }

  // ---- the holder's methods are runs of these steps

  /** Numbers the allocator may give out next, in this order. */
  ghost predicate FreshNumbers(s: State, numbers: seq<nat>) {
    && (forall i :: 0 <= i < |numbers| ==> 0 < numbers[i] && numbers[i] !in s.issued)
    && forall i, j :: 0 <= i < j < |numbers| ==> numbers[i] != numbers[j]
  }

  /** The state once `numbers` have been allocated and released at once. */
  function Discarded(s: State, numbers: seq<nat>): State {
    s.(issued := s.issued + SetOf(numbers), released := s.released + SetOf(numbers))
  }

  lemma DiscardStep(s: State, w: nat, numbers: seq<nat>, i: nat)
    requires w in s.writers && s.writers[w].phase.Allocating? && FreshNumbers(s, numbers) && i < |numbers|
    requires numbers[i] <= s.writers[w].phase.base.sequence
    ensures Next(Discarded(s, numbers[..i]), Allocate(w, numbers[i], true), Discarded(s, numbers[..i + 1]))
  {
    assert numbers[..i + 1] == numbers[..i] + [numbers[i]];
    assert SetOf(numbers[..i + 1]) == SetOf(numbers[..i]) + {numbers[i]};
    assert numbers[i] !in numbers[..i];
  }

  function Reloaded(s: State, w: nat): State
    requires w in s.writers
  {
    s.(writers := s.writers[w := Loaded(s.writers[w], Stored(s, s.writers[w].docID))])
  }

  /** What AssignSequence does when it needs a new sequence is a load followed by one allocation for every number
      it takes: those released at once, and the last one, which the writer ends up with. */
  lemma AssignIsRun(s: State, w: nat, allocations: seq<nat>, k: nat)
    requires w in s.writers && s.writers[w].phase.Loading? && FreshNumbers(s, allocations) && k < |allocations|
    requires var base := Stored(s, s.writers[w].docID);
      && NeedsSequence(s.writers[w].docSequence, base) && base.sequence < allocations[k]
      && forall i :: 0 <= i < k ==> allocations[i] <= base.sequence
    ensures Next(s, Load(w), Reloaded(s, w))
    ensures forall i :: 0 <= i < k ==>
      Next(Discarded(Reloaded(s, w), allocations[..i]), Allocate(w, allocations[i], true),
           Discarded(Reloaded(s, w), allocations[..i + 1]))
    ensures var writer := s.writers[w];
      var last := Discarded(Reloaded(s, w), allocations[..k]);
      Next(last, Allocate(w, allocations[k], true), last.(
        issued := last.issued + {allocations[k]},
        writers := last.writers[w := Writer(writer.docID, allocations[k], NowUnused(writer.docSequence, writer.unused),
                                            Ready(Stored(s, writer.docID)))]))
  {
    var loaded := Reloaded(s, w);
    forall i | 0 <= i < k
      ensures Next(Discarded(loaded, allocations[..i]), Allocate(w, allocations[i], true),
        Discarded(loaded, allocations[..i + 1]))
    {
      DiscardStep(loaded, w, allocations, i);
    }
    assert allocations[k] !in allocations[..k];
  }

  /** The document that AssignSequence hands on is the one a write then stores, but for the cas. */
  lemma AssignedIsStored(s: State, w: nat, cas: nat, updated: Doc)
    requires Inv(s) && CanWrite(s, w, cas)
    requires var writer := s.writers[w];
      updated == Stored(s, writer.docID).(sequence := writer.docSequence, unused := writer.unused)
    ensures forall step, s' :: Next(s, step, s') && IsCommit(step) && step.w == w && step.cas == cas ==>
      Stored(s', s.writers[w].docID) == updated.(cas := cas)
  {
  }

  /** When the allocator fails after giving out `allocations`, all of them too small, that is a run too: the load, one
      released allocation for each, and the failure, which leaves the writer with nothing. */
  lemma FailedAssignIsRun(s: State, w: nat, allocations: seq<nat>)
    requires w in s.writers && s.writers[w].phase.Loading? && FreshNumbers(s, allocations)
    requires var base := Stored(s, s.writers[w].docID);
      && NeedsSequence(s.writers[w].docSequence, base)
      && forall i :: 0 <= i < |allocations| ==> allocations[i] <= base.sequence
    ensures Next(s, Load(w), Reloaded(s, w))
    ensures forall i :: 0 <= i < |allocations| ==>
      Next(Discarded(Reloaded(s, w), allocations[..i]), Allocate(w, allocations[i], true),
           Discarded(Reloaded(s, w), allocations[..i + 1]))
    ensures var writer := s.writers[w];
      var last := Discarded(Reloaded(s, w), allocations);
      var unused := SetOf(NowUnused(writer.docSequence, writer.unused));
      Next(last, Fail(w, {}), last.(released := last.released + unused,
        writers := last.writers[w := last.writers[w].(phase := Done)]))
  {
    var loaded := Reloaded(s, w);
    forall i | 0 <= i < |allocations|
      ensures Next(Discarded(loaded, allocations[..i]), Allocate(w, allocations[i], true),
        Discarded(loaded, allocations[..i + 1]))
    {
      DiscardStep(loaded, w, allocations, i);
    }
    var last := Discarded(loaded, allocations);
    assert Held(last.writers[w]) == SetOf(last.writers[w].unused);
    assert Held(last.writers[w]) - {} == Held(last.writers[w]) && Held(last.writers[w]) * {} == {};
  }

  /** ReleaseAll releases all that a writer still at work holds. */
  lemma ReleaseIsAllHeld(w: Writer)
    requires !w.phase.Done?
    ensures SetOf(ToRelease(w.docSequence, w.unused)) == Held(w)
  {
    assert forall n :: n in ToRelease(w.docSequence, w.unused) <==>
      n in w.unused || (w.docSequence > 0 && n == w.docSequence);
  }
}
