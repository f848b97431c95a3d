/** The merge of channel feeds into one changes feed (db/changes.go:530-633). */
module ChangesMerge {
  import opened Options
  import opened SequenceIds

  /** `removed` holds the channels the document was removed from, or None. */
  datatype ChangeEntry =
    ChangeEntry(id: SequenceID, docID: string, deleted: bool, removed: Option<set<string>>, allRemoved: bool)

  ghost predicate AscendingFeed(feed: seq<ChangeEntry>) {
    && (forall i :: 0 <= i < |feed| ==> Plain(feed[i].id))
    && (forall i, j :: 0 <= i < j < |feed| ==> feed[i].id.Before(feed[j].id))
  }

  ghost predicate AscendingFeeds(feeds: seq<seq<ChangeEntry>>) {
    forall i :: 0 <= i < |feeds| ==> AscendingFeed(feeds[i])
  }

  /** Does the feed offer the ID next? */
  predicate Offers(feed: seq<ChangeEntry>, id: SequenceID) {
    feed != [] && feed[0].id == id
  }

  /** The first of the first k feeds to offer the least ID. */
  function LeastFeed(feeds: seq<seq<ChangeEntry>>, k: nat): (r: Option<nat>)
    requires k <= |feeds|
    ensures r.Some? ==> r.value < k && feeds[r.value] != []
  {
    if k == 0 then None
    else
      var best := LeastFeed(feeds, k - 1);
      if feeds[k - 1] == [] then best
      else if feeds[k - 1][0].id.Before(if best.None? then MAX_SEQUENCE_ID else feeds[best.value][0].id)
        then Some(k - 1)
      else best
  }

  /** The channels that the first k feeds report the entry as removed from. */
  function RemovedUpTo(feeds: seq<seq<ChangeEntry>>, id: SequenceID, k: nat): Option<set<string>>
    requires k <= |feeds|
  {
    if k == 0 then None
    else
      var sofar := RemovedUpTo(feeds, id, k - 1);
      if Offers(feeds[k - 1], id) && feeds[k - 1][0].removed.Some? then
        if sofar.None? then feeds[k - 1][0].removed else Some(sofar.value + feeds[k - 1][0].removed.value)
      else sofar
  }

  /** Do all of the first k feeds that offer the entry report it as removed? */
  predicate AllRemovedUpTo(feeds: seq<seq<ChangeEntry>>, id: SequenceID, k: nat)
    requires k <= |feeds|
  {
    k == 0 || (AllRemovedUpTo(feeds, id, k - 1) && (Offers(feeds[k - 1], id) ==> feeds[k - 1][0].removed.Some?))
  }

  function Combined(feeds: seq<seq<ChangeEntry>>, first: nat): ChangeEntry
    requires first < |feeds| && feeds[first] != []
  {
    var e := feeds[first][0];
    e.(removed := RemovedUpTo(feeds, e.id, |feeds|), allRemoved := AllRemovedUpTo(feeds, e.id, |feeds|))
  }

  /** What is left once every feed has passed the ID. */
  function Passed(feeds: seq<seq<ChangeEntry>>, id: SequenceID): (r: seq<seq<ChangeEntry>>)
    ensures |r| == |feeds|
    ensures forall i :: 0 <= i < |feeds| ==> r[i] == if Offers(feeds[i], id) then feeds[i][1..] else feeds[i]
  {
    seq(|feeds|, i requires 0 <= i < |feeds| => if Offers(feeds[i], id) then feeds[i][1..] else feeds[i])
  }

  function TotalLength(feeds: seq<seq<ChangeEntry>>): nat {
    if feeds == [] then 0 else |feeds[0]| + TotalLength(feeds[1..])
  }

  lemma {:induction false} TotalDrops(a: seq<seq<ChangeEntry>>, b: seq<seq<ChangeEntry>>, k: nat)
    requires |a| == |b| && k < |a| && |b[k]| < |a[k]|
    requires forall i :: 0 <= i < |a| ==> |b[i]| <= |a[i]|
    ensures TotalLength(b) < TotalLength(a)
  {
    if k == 0 {
      TotalAtMost(a[1..], b[1..]);
    } else {
      TotalDrops(a[1..], b[1..], k - 1);
    }
  }

  lemma {:induction false} TotalAtMost(a: seq<seq<ChangeEntry>>, b: seq<seq<ChangeEntry>>)
    requires |a| == |b| && forall i :: 0 <= i < |a| ==> |b[i]| <= |a[i]|
    ensures TotalLength(b) <= TotalLength(a)
  {
    if a != [] {
      TotalAtMost(a[1..], b[1..]);
    }
  }

  /** The whole merge: repeatedly the least ID on offer, combined over the feeds that offer it. */
  function Merged(feeds: seq<seq<ChangeEntry>>): seq<ChangeEntry>
    decreases TotalLength(feeds)
  {
    var least := LeastFeed(feeds, |feeds|);
    if least.None? then []
    else
      var id := feeds[least.value][0].id;
      TotalDrops(feeds, Passed(feeds, id), least.value);
      [Combined(feeds, least.value)] + Merged(Passed(feeds, id))
  }

  // ---- what is sent

  /** Active-only feeds leave out deletions and entries removed from every channel of the reader. */
  predicate Wanted(e: ChangeEntry, activeOnly: bool) {
    !activeOnly || !(e.deleted || e.allRemoved)
  }

  /** Nothing later than the sequence that was stable when the iteration started is sent. */
  predicate Sendable(e: ChangeEntry, stable: nat, activeOnly: bool) {
    Wanted(e, activeOnly) && e.id.seqNo <= stable
  }

  function Sent(all: seq<ChangeEntry>, stable: nat, activeOnly: bool): (r: seq<ChangeEntry>)
    ensures forall e :: e in r <==> e in all && Sendable(e, stable, activeOnly)
  {
    if all == [] then []
    else if Sendable(all[0], stable, activeOnly) then [all[0]] + Sent(all[1..], stable, activeOnly)
    else Sent(all[1..], stable, activeOnly)
  }

  /** The resume point only moves forward: late entries do not roll it back. */
  function Advanced(since: SequenceID, sent: seq<ChangeEntry>): SequenceID {
    if sent == [] then since
    else
      var s := Advanced(since, sent[..|sent| - 1]);
      var id := sent[|sent| - 1].id;
      if s.Before(id) then id else s
  }

  // ---- the merge is exact

  function EntryOf(feed: seq<ChangeEntry>, id: SequenceID): Option<ChangeEntry> {
    if feed == [] then None
    else if feed[0].id == id then Some(feed[0])
    else EntryOf(feed[1..], id)
  }

  /** What the feeds together say about an ID: it comes from the first feed that carries it; it is removed from
      exactly the channels that some feed carrying it reports, and from all iff every such feed reports it. */
  ghost predicate Represents(e: ChangeEntry, feeds: seq<seq<ChangeEntry>>) {
    && (exists i :: 0 <= i < |feeds| && IsBase(e, feeds, i))
    && (e.removed.Some? <==> exists i :: 0 <= i < |feeds| && Reports(feeds[i], e.id))
    && (e.removed.Some? ==> forall ch :: ch in e.removed.value <==>
          exists i :: 0 <= i < |feeds| && ReportsChannel(feeds[i], e.id, ch))
    && (e.allRemoved <==> forall i :: 0 <= i < |feeds| && EntryOf(feeds[i], e.id).Some? ==> Reports(feeds[i], e.id))
  }

  ghost predicate IsBase(e: ChangeEntry, feeds: seq<seq<ChangeEntry>>, i: nat)
    requires i < |feeds|
  {
    && EntryOf(feeds[i], e.id).Some?
    && e == EntryOf(feeds[i], e.id).value.(removed := e.removed, allRemoved := e.allRemoved)
    && forall j :: 0 <= j < i ==> EntryOf(feeds[j], e.id).None?
  }

  predicate Reports(feed: seq<ChangeEntry>, id: SequenceID) {
    var e := EntryOf(feed, id);
    e.Some? && e.value.removed.Some?
  }

  predicate ReportsChannel(feed: seq<ChangeEntry>, id: SequenceID, ch: string) {
    var e := EntryOf(feed, id);
    e.Some? && e.value.removed.Some? && ch in e.value.removed.value
  }

  ghost predicate HeadsPlain(feeds: seq<seq<ChangeEntry>>) {
    forall i :: 0 <= i < |feeds| && feeds[i] != [] ==> Plain(feeds[i][0].id)
  }

  /** The chosen feed offers a least ID, and is the first to offer it. */
  lemma {:induction false} LeastFeedIsLeast(feeds: seq<seq<ChangeEntry>>, k: nat)
    requires k <= |feeds| && HeadsPlain(feeds)
    ensures var r := LeastFeed(feeds, k);
      && (r.None? ==> forall j :: 0 <= j < k ==> feeds[j] == [])
      && (r.Some? ==> forall j :: 0 <= j < k && feeds[j] != [] ==>
            feeds[r.value][0].id == feeds[j][0].id || feeds[r.value][0].id.Before(feeds[j][0].id))
      && (r.Some? ==> forall j :: 0 <= j < r.value ==> !Offers(feeds[j], feeds[r.value][0].id))
  {
    if k > 0 {
      LeastFeedIsLeast(feeds, k - 1);
      var best := LeastFeed(feeds, k - 1);
      if feeds[k - 1] != [] && best.Some? {
        var a, b := feeds[best.value][0].id, feeds[k - 1][0].id;
        forall j | 0 <= j < k - 1 && feeds[j] != []
          ensures b.Before(a) ==> b.Before(feeds[j][0].id)
        {
          BeforeIsStrictTotalOrder(b, a, feeds[j][0].id);
        }
        BeforeIsStrictTotalOrder(a, b, a);
      }
    }
  }

  /** An ascending feed carries an ID that is not before its head only at its head. */
  lemma {:induction false} OnlyAtHead(feed: seq<ChangeEntry>, id: SequenceID)
    requires AscendingFeed(feed) && id.lowSeq == 0
    requires feed != [] ==> id == feed[0].id || id.Before(feed[0].id)
    ensures EntryOf(feed, id) == if Offers(feed, id) then Some(feed[0]) else None
    ensures Offers(feed, id) ==> EntryOf(feed[1..], id) == None
  {
    if feed != [] {
      var rest := feed[1..];
      if rest != [] {
        BeforeIsStrictTotalOrder(id, feed[0].id, rest[0].id);
        BeforeIsStrictTotalOrder(id, rest[0].id, id);
      }
      OnlyAtHead(rest, id);
    }
  }

  /** Passing an ID leaves every other ID where it was. */
  lemma PassedElsewhere(feeds: seq<seq<ChangeEntry>>, id: SequenceID, x: SequenceID, i: nat)
    requires i < |feeds| && x != id
    ensures EntryOf(Passed(feeds, id)[i], x) == EntryOf(feeds[i], x)
  {
  }

  lemma PassedAscending(feeds: seq<seq<ChangeEntry>>, id: SequenceID)
    requires AscendingFeeds(feeds)
    ensures AscendingFeeds(Passed(feeds, id))
  {
    forall i | 0 <= i < |feeds|
      ensures AscendingFeed(Passed(feeds, id)[i])
    {
      assert AscendingFeed(feeds[i]);
    }
  }

  lemma HeadsArePlain(feeds: seq<seq<ChangeEntry>>)
    requires AscendingFeeds(feeds)
    ensures HeadsPlain(feeds)
  {
    forall i | 0 <= i < |feeds| && feeds[i] != []
      ensures Plain(feeds[i][0].id)
    {
      assert AscendingFeed(feeds[i]);
    }
  }

  /** At the least ID, carrying it and offering it are the same. */
  lemma LeastOnOffer(feeds: seq<seq<ChangeEntry>>, i: nat)
    requires AscendingFeeds(feeds) && LeastFeed(feeds, |feeds|).Some? && i < |feeds|
    ensures var id := feeds[LeastFeed(feeds, |feeds|).value][0].id;
      && id.lowSeq == 0
      && EntryOf(feeds[i], id) == (if Offers(feeds[i], id) then Some(feeds[i][0]) else None)
      && EntryOf(Passed(feeds, id)[i], id) == None
  {
    HeadsArePlain(feeds);
    LeastFeedIsLeast(feeds, |feeds|);
    var least := LeastFeed(feeds, |feeds|).value;
    assert AscendingFeed(feeds[least]) && AscendingFeed(feeds[i]);
    OnlyAtHead(feeds[i], feeds[least][0].id);
  }

  // ---- the combined entry

  ghost predicate CarriedAtHead(feeds: seq<seq<ChangeEntry>>, id: SequenceID) {
    forall i :: 0 <= i < |feeds| ==> EntryOf(feeds[i], id) == if Offers(feeds[i], id) then Some(feeds[i][0]) else None
  }

  lemma {:induction false} RemovedUpToIs(feeds: seq<seq<ChangeEntry>>, id: SequenceID, k: nat)
    requires k <= |feeds| && CarriedAtHead(feeds, id)
    ensures RemovedUpTo(feeds, id, k).Some? <==> exists i :: 0 <= i < k && Reports(feeds[i], id)
    ensures AllRemovedUpTo(feeds, id, k) <==>
      forall i :: 0 <= i < k && EntryOf(feeds[i], id).Some? ==> Reports(feeds[i], id)
  {
    if k > 0 {
      RemovedUpToIs(feeds, id, k - 1);
      assert EntryOf(feeds[k - 1], id) == if Offers(feeds[k - 1], id) then Some(feeds[k - 1][0]) else None;
      if RemovedUpTo(feeds, id, k).Some? && RemovedUpTo(feeds, id, k - 1).None? {
        assert Reports(feeds[k - 1], id);
      }
    }
  }

  lemma {:induction false} RemovedChannels(feeds: seq<seq<ChangeEntry>>, id: SequenceID, k: nat, ch: string)
    requires k <= |feeds| && CarriedAtHead(feeds, id)
    ensures (RemovedUpTo(feeds, id, k).Some? && ch in RemovedUpTo(feeds, id, k).value) <==>
            exists i :: 0 <= i < k && ReportsChannel(feeds[i], id, ch)
  {
    if k > 0 {
      RemovedChannels(feeds, id, k - 1, ch);
      assert EntryOf(feeds[k - 1], id) == if Offers(feeds[k - 1], id) then Some(feeds[k - 1][0]) else None;
      if ReportsChannel(feeds[k - 1], id, ch) {
        assert RemovedUpTo(feeds, id, k).Some? && ch in RemovedUpTo(feeds, id, k).value;
      }
    }
  }

  lemma CombinedRepresents(feeds: seq<seq<ChangeEntry>>)
    requires AscendingFeeds(feeds) && LeastFeed(feeds, |feeds|).Some?
    ensures Represents(Combined(feeds, LeastFeed(feeds, |feeds|).value), feeds)
  {
    var least := LeastFeed(feeds, |feeds|).value;
    var id := feeds[least][0].id;
    var e := Combined(feeds, least);
    forall i | 0 <= i < |feeds|
      ensures EntryOf(feeds[i], id) == if Offers(feeds[i], id) then Some(feeds[i][0]) else None
    {
      LeastOnOffer(feeds, i);
    }
    RemovedUpToIs(feeds, id, |feeds|);
    HeadsArePlain(feeds);
    LeastFeedIsLeast(feeds, |feeds|);
    assert IsBase(e, feeds, least);
    if e.removed.Some? {
      forall ch
        ensures ch in e.removed.value <==> exists i :: 0 <= i < |feeds| && ReportsChannel(feeds[i], id, ch)
      {
        RemovedChannels(feeds, id, |feeds|, ch);
      }
    }
  }

  /** An entry that represents what is left represents the whole, if its ID has not been passed. */
  lemma RepresentsBefore(e: ChangeEntry, feeds: seq<seq<ChangeEntry>>, id: SequenceID)
    requires e.id != id && Represents(e, Passed(feeds, id))
    ensures Represents(e, feeds)
  {
    var rest := Passed(feeds, id);
    forall i | 0 <= i < |feeds|
      ensures EntryOf(rest[i], e.id) == EntryOf(feeds[i], e.id)
    {
      PassedElsewhere(feeds, id, e.id, i);
    }
    SameView(e, rest, feeds);
  }

  lemma SameView(e: ChangeEntry, a: seq<seq<ChangeEntry>>, b: seq<seq<ChangeEntry>>)
    requires |a| == |b| && forall i :: 0 <= i < |a| ==> EntryOf(a[i], e.id) == EntryOf(b[i], e.id)
    requires Represents(e, a)
    ensures Represents(e, b)
  {
    var i :| 0 <= i < |a| && IsBase(e, a, i);
    assert IsBase(e, b, i);
    SameReports(e, a, b);
    if e.removed.Some? {
      forall ch
        ensures ch in e.removed.value <==> exists i :: 0 <= i < |b| && ReportsChannel(b[i], e.id, ch)
      {
        SameChannels(e, a, b, ch);
      }
    }
  }

  lemma SameReports(e: ChangeEntry, a: seq<seq<ChangeEntry>>, b: seq<seq<ChangeEntry>>)
    requires |a| == |b| && forall i :: 0 <= i < |a| ==> EntryOf(a[i], e.id) == EntryOf(b[i], e.id)
    ensures (exists i :: 0 <= i < |a| && Reports(a[i], e.id)) <==> (exists i :: 0 <= i < |b| && Reports(b[i], e.id))
    ensures (forall i :: 0 <= i < |a| && EntryOf(a[i], e.id).Some? ==> Reports(a[i], e.id)) <==>
            (forall i :: 0 <= i < |b| && EntryOf(b[i], e.id).Some? ==> Reports(b[i], e.id))
  {
    assert forall i :: 0 <= i < |a| ==> Reports(a[i], e.id) == Reports(b[i], e.id);
  }

  lemma SameChannels(e: ChangeEntry, a: seq<seq<ChangeEntry>>, b: seq<seq<ChangeEntry>>, ch: string)
    requires |a| == |b| && forall i :: 0 <= i < |a| ==> EntryOf(a[i], e.id) == EntryOf(b[i], e.id)
    ensures (exists i :: 0 <= i < |a| && ReportsChannel(a[i], e.id, ch)) <==>
            (exists i :: 0 <= i < |b| && ReportsChannel(b[i], e.id, ch))
  {
    assert forall i :: 0 <= i < |a| ==> ReportsChannel(a[i], e.id, ch) == ReportsChannel(b[i], e.id, ch);
  }

  // ---- the main results about the merge

  ghost predicate Carried(feeds: seq<seq<ChangeEntry>>, id: SequenceID) {
    exists i :: 0 <= i < |feeds| && EntryOf(feeds[i], id).Some?
  }

  ghost predicate HasID(entries: seq<ChangeEntry>, id: SequenceID) {
    exists e :: e in entries && e.id == id
  }

  lemma CarriedAfter(feeds: seq<seq<ChangeEntry>>, x: SequenceID)
    requires AscendingFeeds(feeds) && LeastFeed(feeds, |feeds|).Some?
    ensures var id := feeds[LeastFeed(feeds, |feeds|).value][0].id;
      && Carried(feeds, id) && !Carried(Passed(feeds, id), id)
      && (x != id ==> (Carried(Passed(feeds, id), x) <==> Carried(feeds, x)))
  {
    var least := LeastFeed(feeds, |feeds|).value;
    var id := feeds[least][0].id;
    LeastOnOffer(feeds, least);
    assert EntryOf(feeds[least], id).Some?;
    forall i | 0 <= i < |feeds|
      ensures EntryOf(Passed(feeds, id)[i], id) == None
      ensures x != id ==> EntryOf(Passed(feeds, id)[i], x) == EntryOf(feeds[i], x)
    {
      LeastOnOffer(feeds, i);
      if x != id {
        PassedElsewhere(feeds, id, x, i);
      }
    }
  }

  /** Every entry of the merge stands for what all the feeds together say about its ID. */
  lemma {:induction false} MergedRepresents(feeds: seq<seq<ChangeEntry>>, e: ChangeEntry)
    requires AscendingFeeds(feeds) && e in Merged(feeds)
    ensures Represents(e, feeds) && Carried(feeds, e.id)
    decreases TotalLength(feeds)
  {
    var least := LeastFeed(feeds, |feeds|).value;
    var id := feeds[least][0].id;
    var rest := Passed(feeds, id);
    CarriedAfter(feeds, e.id);
    if e == Combined(feeds, least) {
      CombinedRepresents(feeds);
    } else {
      TotalDrops(feeds, rest, least);
      PassedAscending(feeds, id);
      MergedRepresents(rest, e);
      RepresentsBefore(e, feeds, id);
    }
  }

  /** The merge has exactly the IDs the feeds carry. */
  lemma {:induction false} MergedIDs(feeds: seq<seq<ChangeEntry>>, x: SequenceID)
    requires AscendingFeeds(feeds)
    ensures HasID(Merged(feeds), x) <==> Carried(feeds, x)
    decreases TotalLength(feeds)
  {
    var l := LeastFeed(feeds, |feeds|);
    if l.None? {
      HeadsArePlain(feeds);
      LeastFeedIsLeast(feeds, |feeds|);
      assert forall i :: 0 <= i < |feeds| ==> EntryOf(feeds[i], x).None?;
    } else {
      var id := feeds[l.value][0].id;
      var rest := Passed(feeds, id);
      CarriedAfter(feeds, x);
      TotalDrops(feeds, rest, l.value);
      PassedAscending(feeds, id);
      MergedIDs(rest, x);
      var c := Combined(feeds, l.value);
      assert Merged(feeds) == [c] + Merged(rest);
      if x == id {
        assert c in Merged(feeds) && c.id == x;
      } else {
        OneMoreID(c, Merged(rest), x);
      }
    }
  }

  lemma OneMoreID(c: ChangeEntry, rest: seq<ChangeEntry>, x: SequenceID)
    requires c.id != x
    ensures HasID([c] + rest, x) <==> HasID(rest, x)
  {
    assert forall e :: e in [c] + rest <==> e == c || e in rest;
  }

  ghost predicate AscendingIDs(entries: seq<ChangeEntry>) {
    forall i, j :: 0 <= i < j < |entries| ==> entries[i].id.Before(entries[j].id)
  }

  lemma {:induction false} CarriedNotBefore(feed: seq<ChangeEntry>, x: SequenceID)
    requires AscendingFeed(feed) && EntryOf(feed, x).Some?
    ensures feed != [] && x.lowSeq == 0 && (x == feed[0].id || feed[0].id.Before(x))
  {
    if feed[0].id != x {
      CarriedNotBefore(feed[1..], x);
      BeforeIsStrictTotalOrder(feed[0].id, feed[1].id, x);
    }
  }

  /** The merge is strictly ascending: each ID is emitted once. */
  lemma {:induction false} MergedAscending(feeds: seq<seq<ChangeEntry>>)
    requires AscendingFeeds(feeds)
    ensures AscendingIDs(Merged(feeds))
    decreases TotalLength(feeds)
  {
    var l := LeastFeed(feeds, |feeds|);
    if l.Some? {
      var id := feeds[l.value][0].id;
      var rest := Passed(feeds, id);
      TotalDrops(feeds, rest, l.value);
      PassedAscending(feeds, id);
      MergedAscending(rest);
      forall e | e in Merged(rest)
        ensures id.Before(e.id)
      {
        MergedRepresents(rest, e);
        LeastBeforeRest(feeds, e.id);
      }
    }
  }

  lemma LeastBeforeRest(feeds: seq<seq<ChangeEntry>>, x: SequenceID)
    requires AscendingFeeds(feeds) && LeastFeed(feeds, |feeds|).Some?
    requires Carried(Passed(feeds, feeds[LeastFeed(feeds, |feeds|).value][0].id), x)
    ensures feeds[LeastFeed(feeds, |feeds|).value][0].id.Before(x)
  {
    var least := LeastFeed(feeds, |feeds|).value;
    var id := feeds[least][0].id;
    CarriedAfter(feeds, x);
    var i :| 0 <= i < |feeds| && EntryOf(feeds[i], x).Some?;
    assert AscendingFeed(feeds[i]) && AscendingFeed(feeds[least]);
    CarriedNotBefore(feeds[i], x);
    HeadsArePlain(feeds);
    LeastFeedIsLeast(feeds, |feeds|);
    BeforeIsStrictTotalOrder(id, feeds[i][0].id, x);
  }
}
