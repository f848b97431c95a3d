/** Every interleaving of late arrivals, purges, and feeds registering, polling and closing on one channel:
    each feed gets every late change that arrived after it registered exactly once and in arrival order. */
module LateSequenceRuns {
  import opened Options
  import opened Numbers
  import opened LogEntries
  import opened LateSequencesSpec

  /** A registered feed. Its history says where in the arrivals it registered, how far it has come, and what
      it has been given. */
  datatype Client = Client(lastSequence: nat, registered: nat, position: nat, delivered: seq<LogEntry>)

  /** `arrivals` is every entry ever listed, the zero entry included; the first `purged` are gone. */
  datatype World = World(log: LateLog, arrivals: seq<LogEntry>, purged: nat, clients: map<nat, Client>)

  datatype Step =
    | Add(change: LogEntry)
    | Purge
    | Register(client: nat)
    | PollBy(client: nat)
    | Close(client: nat)

  function Start(): World {
    World(Initial(), [SENTINEL], 0, map[])
  }

  function Appended(w: World, e: LogEntry): World {
    w.(log := LateLog(w.log.logs + [LateEntry(e, 0)], e.seqNo), arrivals := w.arrivals + [e])
  }

  function Purging(w: World): World {
    w.(log := Purged(w.log), purged := w.purged + PurgeCount(w.log.logs))
  }

  function Registering(w: World, c: nat): World
    requires w.log.logs != [] && w.arrivals != []
  {
    var top := |w.arrivals| - 1;
    w.(log := Registered(w.log),
       clients := w.clients[c := Client(w.log.logs[|w.log.logs| - 1].entry.seqNo, top, top, [])])
  }

  function Polling(w: World, c: nat): World
    requires w.log.logs != [] && w.arrivals != [] && c in w.clients
  {
    match Poll(w.log, w.clients[c].lastSequence)
    case RollbackRequired => w
    case Polled(entries, last, log) =>
      w.(log := log, clients := w.clients[c :=
           w.clients[c].(lastSequence := last, position := |w.arrivals| - 1,
                         delivered := w.clients[c].delivered + entries)])
  }

  function Closing(w: World, c: nat): World
    requires c in w.clients
  {
    w.(log := (match Released(w.log, w.clients[c].lastSequence) case Some(l) => l case None => w.log),
       clients := w.clients - {c})
  }

  ghost predicate Next(w: World, step: Step, w': World) {
    match step
    case Add(e) =>
      // a sequence arrives late at most once
      && (forall x :: x in w.arrivals ==> x.seqNo != e.seqNo)
      && w' == Purging(Appended(w, e))
    case Purge => w' == Purging(w)
    case Register(c) =>
      && c !in w.clients && |w.clients| < MAX_UINT64 && w.log.logs != [] && w.arrivals != []
      && w' == Registering(w, c)
    case PollBy(c) => w.log.logs != [] && w.arrivals != [] && c in w.clients && w' == Polling(w, c)
    case Close(c) => c in w.clients && w' == Closing(w, c)
  }

  /** The step that adds a late sequence does what the cache does: lists it last, and drops what nobody listens to. */
  lemma AddIsAddedLate(w: World, e: LogEntry)
    ensures Purging(Appended(w, e)).log == AddedLate(w.log, e)
  {
  }

  // ---- the invariant

  predicate DifferAt(arrivals: seq<LogEntry>, i: int, j: int) {
    0 <= i < j < |arrivals| ==> arrivals[i].seqNo != arrivals[j].seqNo
  }

  /** No sequence arrives twice. */
  ghost predicate Distinct(arrivals: seq<LogEntry>) {
    forall i, j :: DifferAt(arrivals, i, j)
  }

  /** The listed entries are the arrivals from `purged` on. */
  ghost predicate Shape(log: LateLog, arrivals: seq<LogEntry>, purged: nat) {
    && log.logs != [] && |arrivals| == purged + |log.logs|
    && LateEntries(log.logs) == arrivals[purged..]
    && log.last == arrivals[|arrivals| - 1].seqNo
  }

  ghost function At(clients: map<nat, Client>, p: nat): set<nat> {
    set c | c in clients && clients[c].position == p
  }

  /** Every listener count is the number of feeds at that position. */
  ghost predicate Counted(logs: seq<LateEntry>, clients: map<nat, Client>, purged: nat) {
    forall i :: CountedAt(logs, clients, purged, i)
  }

  ghost predicate CountedAt(logs: seq<LateEntry>, clients: map<nat, Client>, purged: nat, i: int) {
    0 <= i < |logs| ==> logs[i].listeners == |At(clients, purged + i)|
  }

  ghost predicate Served(client: Client, arrivals: seq<LogEntry>, purged: nat) {
    && client.registered <= client.position < |arrivals| && purged <= client.position
    && client.lastSequence == arrivals[client.position].seqNo
    && client.delivered == arrivals[client.registered + 1..client.position + 1]
  }

  ghost predicate AllServed(clients: map<nat, Client>, arrivals: seq<LogEntry>, purged: nat) {
    forall c :: ServedAt(clients, c, arrivals, purged)
  }

  ghost predicate ServedAt(clients: map<nat, Client>, c: nat, arrivals: seq<LogEntry>, purged: nat) {
    c in clients ==> Served(clients[c], arrivals, purged)
  }

  ghost predicate Inv(w: World) {
    && Distinct(w.arrivals) && |w.clients| <= MAX_UINT64
    && Shape(w.log, w.arrivals, w.purged)
    && Counted(w.log.logs, w.clients, w.purged)
    && AllServed(w.clients, w.arrivals, w.purged)
  }

  lemma StartInv()
    ensures Inv(Start())
  {
    assert At(map[], 0) == {};
  }

  /** A feed's position is found where it is listed. */
  lemma Located(log: LateLog, arrivals: seq<LogEntry>, purged: nat, client: Client)
    requires Distinct(arrivals) && Shape(log, arrivals, purged) && Served(client, arrivals, purged)
    ensures Find(log.logs, client.lastSequence) == client.position - purged
  {
    var entries := LateEntries(log.logs);
    var p := client.position - purged;
    assert entries[p] == arrivals[client.position];
    forall k | 0 <= k < p
      ensures log.logs[k].entry.seqNo != client.lastSequence
    {
      assert entries[k] == arrivals[purged + k];
      assert DifferAt(arrivals, purged + k, client.position);
    }
    FindFirst(log.logs, client.lastSequence, p);
  }

  // ---- feeds leave and join positions

  lemma LeaveCounted(logs: seq<LateEntry>, clients: map<nat, Client>, purged: nat, c: nat)
    requires Counted(logs, clients, purged) && c in clients && purged <= clients[c].position < purged + |logs|
    ensures var i := clients[c].position - purged;
      && logs[i].listeners > 0
      && Counted(Unlistened(logs, i), clients - {c}, purged)
  {
    var pos := clients[c].position;
    var i := pos - purged;
    LeaveAt(clients, c, pos);
    assert CountedAt(logs, clients, purged, i);
    var others := clients - {c};
    var logs' := Unlistened(logs, i);
    forall k
      ensures CountedAt(logs', others, purged, k)
    {
      assert CountedAt(logs, clients, purged, k);
      if 0 <= k < |logs| {
        LeaveAt(clients, c, purged + k);
      }
    }
  }

  lemma LeaveAt(clients: map<nat, Client>, c: nat, p: nat)
    requires c in clients
    ensures |At(clients, p)| == |At(clients - {c}, p)| + (if p == clients[c].position then 1 else 0)
  {
    if p == clients[c].position {
      assert At(clients, p) == At(clients - {c}, p) + {c};
    } else {
      assert At(clients, p) == At(clients - {c}, p);
    }
  }

  lemma JoinCounted(logs: seq<LateEntry>, clients: map<nat, Client>, purged: nat, c: nat, client: Client)
    requires Counted(logs, clients, purged) && c !in clients && |clients| < MAX_UINT64
    requires purged <= client.position < purged + |logs|
    ensures Counted(Listened(logs, client.position - purged), clients[c := client], purged)
  {
    var i := client.position - purged;
    var logs', clients' := Listened(logs, i), clients[c := client];
    forall k
      ensures CountedAt(logs', clients', purged, k)
    {
      assert CountedAt(logs, clients, purged, k);
      if 0 <= k < |logs| {
        JoinAt(clients, c, client, purged + k);
        SubsetSize(At(clients, purged + k), clients.Keys);
      }
    }
  }

  lemma JoinAt(clients: map<nat, Client>, c: nat, client: Client, p: nat)
    requires c !in clients
    ensures At(clients[c := client], p) == At(clients, p) + (if p == client.position then {c} else {})
    ensures |At(clients[c := client], p)| == |At(clients, p)| + (if p == client.position then 1 else 0)
  {
    assert At(clients[c := client], p) == At(clients, p) + (if p == client.position then {c} else {});
    assert c !in At(clients, p);
  }

  lemma SameEntries(logs: seq<LateEntry>, i: nat)
    requires i < |logs|
    ensures LateEntries(Listened(logs, i)) == LateEntries(logs)
    ensures LateEntries(Unlistened(logs, i)) == LateEntries(logs)
  {
  }

  // ---- purging and appending

  /** Purging removes only positions no feed is at. */
  lemma PurgeInv(w: World)
    requires Inv(w)
    ensures Inv(Purging(w))
  {
    var k := PurgeCount(w.log.logs);
    PurgeShape(w.log, w.arrivals, w.purged, k);
    PurgeCounted(w.log.logs, w.clients, w.purged, k);
    var purged := w.purged + k;
    forall c
      ensures ServedAt(w.clients, c, w.arrivals, purged)
    {
      if c in w.clients {
        PurgeSpares(w, c);
      }
    }
  }

  lemma PurgeShape(log: LateLog, arrivals: seq<LogEntry>, purged: nat, k: nat)
    requires Shape(log, arrivals, purged) && k < |log.logs|
    ensures Shape(log.(logs := log.logs[k..]), arrivals, purged + k)
  {
    assert LateEntries(log.logs[k..]) == arrivals[purged..][k..] == arrivals[purged + k..];
  }

  lemma PurgeCounted(logs: seq<LateEntry>, clients: map<nat, Client>, purged: nat, k: nat)
    requires Counted(logs, clients, purged) && k <= |logs|
    ensures Counted(logs[k..], clients, purged + k)
  {
    var purged' := purged + k;
    forall i
      ensures CountedAt(logs[k..], clients, purged', i)
    {
      assert CountedAt(logs, clients, purged, k + i);
    }
  }

  lemma PurgeSpares(w: World, c: nat)
    requires Inv(w) && c in w.clients
    ensures Served(w.clients[c], w.arrivals, w.purged)
    ensures w.purged + PurgeCount(w.log.logs) <= w.clients[c].position
  {
    var i := w.clients[c].position - w.purged;
    assert ServedAt(w.clients, c, w.arrivals, w.purged);
    LeaveCounted(w.log.logs, w.clients, w.purged, c);
  }

  lemma AppendInv(w: World, e: LogEntry)
    requires Inv(w) && forall x :: x in w.arrivals ==> x.seqNo != e.seqNo
    ensures Inv(Appended(w, e))
  {
    AppendDistinct(w.arrivals, e);
    AppendShape(w.log, w.arrivals, w.purged, e);
    AppendCounted(w, e);
    forall c
      ensures ServedAt(w.clients, c, w.arrivals + [e], w.purged)
    {
      assert ServedAt(w.clients, c, w.arrivals, w.purged);
      if c in w.clients {
        AppendServed(w.clients[c], w.arrivals, w.purged, e);
      }
    }
  }

  lemma AppendDistinct(arrivals: seq<LogEntry>, e: LogEntry)
    requires Distinct(arrivals) && forall x :: x in arrivals ==> x.seqNo != e.seqNo
    ensures Distinct(arrivals + [e])
  {
    forall i, j
      ensures DifferAt(arrivals + [e], i, j)
    {
      assert DifferAt(arrivals, i, j);
    }
  }

  lemma AppendShape(log: LateLog, arrivals: seq<LogEntry>, purged: nat, e: LogEntry)
    requires Shape(log, arrivals, purged)
    ensures Shape(LateLog(log.logs + [LateEntry(e, 0)], e.seqNo), arrivals + [e], purged)
  {
    assert LateEntries(log.logs + [LateEntry(e, 0)]) == LateEntries(log.logs) + [e];
    assert (arrivals + [e])[purged..] == arrivals[purged..] + [e];
  }

  lemma AppendServed(client: Client, arrivals: seq<LogEntry>, purged: nat, e: LogEntry)
    requires Served(client, arrivals, purged)
    ensures Served(client, arrivals + [e], purged)
  {
    assert (arrivals + [e])[client.registered + 1..client.position + 1] ==
      arrivals[client.registered + 1..client.position + 1];
  }

  lemma AppendCounted(w: World, e: LogEntry)
    requires Shape(w.log, w.arrivals, w.purged) && Counted(w.log.logs, w.clients, w.purged)
    requires AllServed(w.clients, w.arrivals, w.purged)
    ensures Counted(w.log.logs + [LateEntry(e, 0)], w.clients, w.purged)
  {
    assert At(w.clients, |w.arrivals|) == {} by {
      forall c | c in w.clients
        ensures w.clients[c].position < |w.arrivals|
      {
        assert ServedAt(w.clients, c, w.arrivals, w.purged);
      }
    }
    forall i
      ensures CountedAt(w.log.logs + [LateEntry(e, 0)], w.clients, w.purged, i)
    {
      assert CountedAt(w.log.logs, w.clients, w.purged, i);
    }
  }

  // ---- registering, polling, closing

  lemma ListenShape(log: LateLog, arrivals: seq<LogEntry>, purged: nat, i: nat)
    requires Shape(log, arrivals, purged) && i < |log.logs|
    ensures Shape(log.(logs := Listened(log.logs, i)), arrivals, purged)
    ensures Shape(log.(logs := Unlistened(log.logs, i)), arrivals, purged)
  {
    SameEntries(log.logs, i);
  }

  lemma JoinServed(clients: map<nat, Client>, c: nat, client: Client, arrivals: seq<LogEntry>, purged: nat)
    requires AllServed(clients, arrivals, purged) && Served(client, arrivals, purged)
    ensures AllServed(clients[c := client], arrivals, purged)
    ensures c in clients ==> |clients[c := client]| == |clients|
    ensures c !in clients ==> |clients[c := client]| == |clients| + 1
  {
    assert clients[c := client].Keys == clients.Keys + {c};
    var clients' := clients[c := client];
    forall d
      ensures ServedAt(clients', d, arrivals, purged)
    {
      assert ServedAt(clients, d, arrivals, purged);
    }
  }

  lemma RegisterInv(w: World, c: nat)
    requires Inv(w) && c !in w.clients && |w.clients| < MAX_UINT64 && w.arrivals != []
    ensures Inv(Registering(w, c))
  {
    RegisterKeepsShape(w, c);
    RegisterKeepsCounts(w, c);
    RegisterKeepsServed(w, c);
  }

  lemma RegisterKeepsShape(w: World, c: nat)
    requires Shape(w.log, w.arrivals, w.purged)
    ensures Registering(w, c).arrivals == w.arrivals && Registering(w, c).purged == w.purged
    ensures Shape(Registering(w, c).log, w.arrivals, w.purged)
  {
    ListenShape(w.log, w.arrivals, w.purged, |w.log.logs| - 1);
  }

  lemma RegisterKeepsCounts(w: World, c: nat)
    requires Shape(w.log, w.arrivals, w.purged) && Counted(w.log.logs, w.clients, w.purged)
    requires c !in w.clients && |w.clients| < MAX_UINT64
    ensures Counted(Registering(w, c).log.logs, Registering(w, c).clients, w.purged)
  {
    RegisteringIs(w, c);
    var top := |w.arrivals| - 1;
    JoinCounted(w.log.logs, w.clients, w.purged, c, Client(w.arrivals[top].seqNo, top, top, []));
  }

  lemma RegisterKeepsServed(w: World, c: nat)
    requires Shape(w.log, w.arrivals, w.purged) && AllServed(w.clients, w.arrivals, w.purged) && c !in w.clients
    ensures AllServed(Registering(w, c).clients, w.arrivals, w.purged) && |Registering(w, c).clients| == |w.clients| + 1
  {
    RegisteringIs(w, c);
    var top := |w.arrivals| - 1;
    var client := Client(w.arrivals[top].seqNo, top, top, []);
    NewcomerServed(w.log, w.arrivals, w.purged, client);
    JoinServed(w.clients, c, client, w.arrivals, w.purged);
  }

  lemma RegisteringIs(w: World, c: nat)
    requires Shape(w.log, w.arrivals, w.purged)
    ensures var top := |w.arrivals| - 1;
      Registering(w, c) == w.(log := w.log.(logs := Listened(w.log.logs, |w.log.logs| - 1)),
                              clients := w.clients[c := Client(w.arrivals[top].seqNo, top, top, [])])
  {
    ListedSuffix(w.log, w.arrivals, w.purged, |w.log.logs| - 1);
  }

  lemma NewcomerServed(log: LateLog, arrivals: seq<LogEntry>, purged: nat, client: Client)
    requires Shape(log, arrivals, purged)
    requires var top := |arrivals| - 1; client == Client(arrivals[top].seqNo, top, top, [])
    ensures Served(client, arrivals, purged)
  {
    assert arrivals[|arrivals|..|arrivals|] == [];
  }

  /** What a poll leaves when the feed is at the i-th listed entry. */
  function PolledLog(log: LateLog, i: nat): LateLog
    requires i < |log.logs|
  {
    if i == |log.logs| - 1 then log else log.(logs := Listened(Unlistened(log.logs, i), |log.logs| - 1))
  }

  /** Polling from a feed's own position: everything listed after it. */
  lemma PollClient(log: LateLog, arrivals: seq<LogEntry>, purged: nat, client: Client)
    requires Distinct(arrivals) && Shape(log, arrivals, purged) && Served(client, arrivals, purged)
    ensures Poll(log, client.lastSequence) ==
      Polled(arrivals[client.position + 1..], arrivals[|arrivals| - 1].seqNo, PolledLog(log, client.position - purged))
  {
    var i := client.position - purged;
    AtLast(arrivals, client.position);
    if i == |log.logs| - 1 {
      assert arrivals[client.position + 1..] == [];
    } else {
      Located(log, arrivals, purged, client);
      ListedSuffix(log, arrivals, purged, i);
      PollFound(log, client.lastSequence, i);
    }
  }

  lemma PollFound(log: LateLog, since: nat, i: nat)
    requires since != log.last && i < |log.logs| && Find(log.logs, since) == i
    ensures Poll(log, since) == Polled(LateEntries(log.logs[i + 1..]), log.logs[|log.logs| - 1].entry.seqNo,
                                       log.(logs := Listened(Unlistened(log.logs, i), |log.logs| - 1)))
  {
  }

  lemma AtLast(arrivals: seq<LogEntry>, position: nat)
    requires Distinct(arrivals) && position < |arrivals|
    ensures arrivals[position].seqNo == arrivals[|arrivals| - 1].seqNo <==> position == |arrivals| - 1
  {
    if position < |arrivals| - 1 {
      assert DifferAt(arrivals, position, |arrivals| - 1);
    }
  }

  lemma ListedSuffix(log: LateLog, arrivals: seq<LogEntry>, purged: nat, i: nat)
    requires Shape(log, arrivals, purged) && i < |log.logs|
    ensures LateEntries(log.logs[i + 1..]) == arrivals[purged + i + 1..]
    ensures log.logs[|log.logs| - 1].entry == arrivals[|arrivals| - 1]
  {
    var entries := LateEntries(log.logs);
    assert LateEntries(log.logs[i + 1..]) == entries[i + 1..];
    assert entries[i + 1..] == arrivals[purged..][i + 1..] == arrivals[purged + i + 1..];
    assert entries[|entries| - 1] == arrivals[purged..][|entries| - 1];
  }

  /** A registered feed is never told to roll back, and gets exactly what has arrived since its last poll. */
  lemma PollExact(w: World, c: nat)
    requires Inv(w) && c in w.clients
    ensures var r := Poll(w.log, w.clients[c].lastSequence);
      && r.Polled? && w.clients[c].position < |w.arrivals|
      && r.entries == w.arrivals[w.clients[c].position + 1..]
      && r.lastSequence == w.arrivals[|w.arrivals| - 1].seqNo
  {
    ServedOne(w, c);
    PollClient(w.log, w.arrivals, w.purged, w.clients[c]);
  }

  lemma ServedOne(w: World, c: nat)
    requires Inv(w) && c in w.clients
    ensures Served(w.clients[c], w.arrivals, w.purged)
  {
    assert ServedAt(w.clients, c, w.arrivals, w.purged);
  }

  function MovedClient(client: Client, arrivals: seq<LogEntry>): Client
    requires client.position < |arrivals|
  {
    var top := |arrivals| - 1;
    Client(arrivals[top].seqNo, client.registered, top, client.delivered + arrivals[client.position + 1..])
  }

  lemma MovedServed(client: Client, arrivals: seq<LogEntry>, purged: nat)
    requires Served(client, arrivals, purged)
    ensures Served(MovedClient(client, arrivals), arrivals, purged)
    ensures MovedClient(client, arrivals).delivered == arrivals[client.registered + 1..]
  {
    var from, to := client.registered + 1, client.position + 1;
    assert arrivals[from..] == arrivals[from..to] + arrivals[to..];
    assert arrivals[from..|arrivals|] == arrivals[from..];
  }

  /** One feed leaves its position and joins the latest one. */
  lemma PollInv(w: World, c: nat)
    requires Inv(w) && c in w.clients && w.arrivals != []
    ensures Inv(Polling(w, c))
  {
    ServedOne(w, c);
    PollKeepsShape(w, c);
    PollKeepsCounts(w, c);
    PollKeepsServed(w, c);
  }

  lemma PollKeepsShape(w: World, c: nat)
    requires Distinct(w.arrivals) && Shape(w.log, w.arrivals, w.purged)
    requires c in w.clients && Served(w.clients[c], w.arrivals, w.purged)
    ensures Polling(w, c).arrivals == w.arrivals && Polling(w, c).purged == w.purged
    ensures Shape(Polling(w, c).log, w.arrivals, w.purged)
  {
    PollingIs(w, c);
    PolledShape(w.log, w.arrivals, w.purged, w.clients[c].position - w.purged);
  }

  lemma PollKeepsCounts(w: World, c: nat)
    requires Distinct(w.arrivals) && Shape(w.log, w.arrivals, w.purged) && Counted(w.log.logs, w.clients, w.purged)
    requires |w.clients| <= MAX_UINT64 && c in w.clients && Served(w.clients[c], w.arrivals, w.purged)
    ensures Counted(Polling(w, c).log.logs, Polling(w, c).clients, w.purged)
  {
    PollingIs(w, c);
    PolledCounted(w.log, w.arrivals, w.purged, w.clients, c);
  }

  lemma PollKeepsServed(w: World, c: nat)
    requires Distinct(w.arrivals) && Shape(w.log, w.arrivals, w.purged) && AllServed(w.clients, w.arrivals, w.purged)
    requires c in w.clients && Served(w.clients[c], w.arrivals, w.purged)
    ensures AllServed(Polling(w, c).clients, w.arrivals, w.purged) && |Polling(w, c).clients| == |w.clients|
  {
    PollingIs(w, c);
    PolledServed(w.clients, c, w.arrivals, w.purged);
  }

  lemma PolledServed(clients: map<nat, Client>, c: nat, arrivals: seq<LogEntry>, purged: nat)
    requires AllServed(clients, arrivals, purged) && c in clients && Served(clients[c], arrivals, purged)
    ensures AllServed(clients[c := MovedClient(clients[c], arrivals)], arrivals, purged)
    ensures |clients[c := MovedClient(clients[c], arrivals)]| == |clients|
  {
    MovedServed(clients[c], arrivals, purged);
    JoinServed(clients, c, MovedClient(clients[c], arrivals), arrivals, purged);
  }

  lemma PollingIs(w: World, c: nat)
    requires Distinct(w.arrivals) && Shape(w.log, w.arrivals, w.purged)
    requires c in w.clients && Served(w.clients[c], w.arrivals, w.purged)
    ensures Polling(w, c) == w.(log := PolledLog(w.log, w.clients[c].position - w.purged),
                                clients := w.clients[c := MovedClient(w.clients[c], w.arrivals)])
  {
    PollClient(w.log, w.arrivals, w.purged, w.clients[c]);
  }

  lemma PolledShape(log: LateLog, arrivals: seq<LogEntry>, purged: nat, i: nat)
    requires Shape(log, arrivals, purged) && i < |log.logs|
    ensures Shape(PolledLog(log, i), arrivals, purged)
  {
    if i < |log.logs| - 1 {
      ListenShape(log, arrivals, purged, i);
      ListenShape(log.(logs := Unlistened(log.logs, i)), arrivals, purged, |log.logs| - 1);
    }
  }

  lemma PolledCounted(log: LateLog, arrivals: seq<LogEntry>, purged: nat, clients: map<nat, Client>, c: nat)
    requires Shape(log, arrivals, purged) && Counted(log.logs, clients, purged)
    requires |clients| <= MAX_UINT64 && c in clients && Served(clients[c], arrivals, purged)
    ensures Counted(PolledLog(log, clients[c].position - purged).logs,
      clients[c := MovedClient(clients[c], arrivals)], purged)
  {
    var client := clients[c];
    if client.position == |arrivals| - 1 {
      assert arrivals[client.position + 1..] == [];
      assert MovedClient(client, arrivals) == client;
      assert clients[c := client] == clients;
    } else {
      MoveCounted(log.logs, clients, purged, c, MovedClient(client, arrivals));
    }
  }

  lemma MoveCounted(logs: seq<LateEntry>, clients: map<nat, Client>, purged: nat, c: nat, client: Client)
    requires Counted(logs, clients, purged) && c in clients && |clients| <= MAX_UINT64
    requires purged <= clients[c].position < purged + |logs| && purged <= client.position < purged + |logs|
    ensures Counted(Listened(Unlistened(logs, clients[c].position - purged), client.position - purged),
                    clients[c := client], purged)
  {
    LeaveCounted(logs, clients, purged, c);
    var others := clients - {c};
    assert others.Keys == clients.Keys - {c};
    JoinCounted(Unlistened(logs, clients[c].position - purged), others, purged, c, client);
    assert others[c := client] == clients[c := client];
  }

  /** Closing a feed finds its position and never takes a count below zero. */
  lemma CloseInv(w: World, c: nat)
    requires Inv(w) && c in w.clients
    ensures Inv(Closing(w, c))
    ensures Released(w.log, w.clients[c].lastSequence).Some?
  {
    ServedOne(w, c);
    var i := w.clients[c].position - w.purged;
    ClosingIs(w, c);
    ListenShape(w.log, w.arrivals, w.purged, i);
    LeaveCounted(w.log.logs, w.clients, w.purged, c);
    LeaveServed(w.clients, c, w.arrivals, w.purged);
  }

  lemma ClosingIs(w: World, c: nat)
    requires Distinct(w.arrivals) && Shape(w.log, w.arrivals, w.purged)
    requires c in w.clients && Served(w.clients[c], w.arrivals, w.purged)
    ensures Released(w.log, w.clients[c].lastSequence).Some?
    ensures Closing(w, c) == w.(log := w.log.(logs := Unlistened(w.log.logs, w.clients[c].position - w.purged)),
                                clients := w.clients - {c})
  {
    Located(w.log, w.arrivals, w.purged, w.clients[c]);
  }

  lemma LeaveServed(clients: map<nat, Client>, c: nat, arrivals: seq<LogEntry>, purged: nat)
    requires AllServed(clients, arrivals, purged) && c in clients
    ensures AllServed(clients - {c}, arrivals, purged) && |clients - {c}| < |clients|
  {
    assert (clients - {c}).Keys == clients.Keys - {c};
    var others := clients - {c};
    forall d
      ensures ServedAt(others, d, arrivals, purged)
    {
      assert ServedAt(clients, d, arrivals, purged);
    }
  }

  lemma StepInv(w: World, step: Step, w': World)
    requires Inv(w) && Next(w, step, w')
    ensures Inv(w')
  {
    match step
    case Add(e) =>
      AppendInv(w, e);
      PurgeInv(Appended(w, e));
    case Purge => PurgeInv(w);
    case Register(c) => RegisterInv(w, c);
    case PollBy(c) => PollInv(w, c);
    case Close(c) => CloseInv(w, c);
  }

  ghost predicate IsRun(run: seq<World>, steps: seq<Step>) {
    && |run| == |steps| + 1 && run[0] == Start()
    && forall i :: 0 <= i < |steps| ==> Next(run[i], steps[i], run[i + 1])
  }

  lemma {:induction false} AlwaysInv(run: seq<World>, steps: seq<Step>, k: nat)
    requires IsRun(run, steps) && k < |run|
    ensures Inv(run[k])
  {
    if k == 0 {
      StartInv();
    } else {
      AlwaysInv(run, steps, k - 1);
      StepInv(run[k - 1], steps[k - 1], run[k]);
    }
  }

  lemma DeliveredExact(w: World, c: nat)
    requires Distinct(w.arrivals) && Shape(w.log, w.arrivals, w.purged)
    requires c in w.clients && Served(w.clients[c], w.arrivals, w.purged)
    ensures Poll(w.log, w.clients[c].lastSequence).Polled?
    ensures c in Polling(w, c).clients
    ensures var after := Polling(w, c).clients[c];
      after.registered == w.clients[c].registered && after.delivered == w.arrivals[after.registered + 1..]
  {
    PollClient(w.log, w.arrivals, w.purged, w.clients[c]);
    PollingIs(w, c);
    MovedServed(w.clients[c], w.arrivals, w.purged);
  }

  /** Exactly once, in arrival order, in every run: a poll of a registered feed never fails, and after it the
      feed has been given precisely what has arrived since it registered. */
  lemma ExactlyOnceInOrder(run: seq<World>, steps: seq<Step>, k: nat, c: nat)
    requires IsRun(run, steps) && k < |steps| && steps[k] == PollBy(c)
    ensures Inv(run[k]) && c in run[k].clients && c in run[k + 1].clients
    ensures Poll(run[k].log, run[k].clients[c].lastSequence).Polled?
    ensures var arrivals := run[k].arrivals;
            var before, after := run[k].clients[c], run[k + 1].clients[c];
      && Distinct(arrivals) && before.registered <= before.position < |arrivals|
      && before.delivered == arrivals[before.registered + 1..before.position + 1]
      && after.registered == before.registered && after.delivered == arrivals[before.registered + 1..]
  {
    AlwaysInv(run, steps, k);
    assert Next(run[k], PollBy(c), run[k + 1]);
    ServedOne(run[k], c);
    DeliveredExact(run[k], c);
  }

  /** Counts are exact in every run: they neither underflow nor lose a listener, and no purge removes a
      position that a feed still refers to. */
  lemma CountsExact(run: seq<World>, steps: seq<Step>, k: nat)
    requires IsRun(run, steps) && k < |run|
    ensures Counted(run[k].log.logs, run[k].clients, run[k].purged)
    ensures forall c :: c in run[k].clients ==>
      Find(run[k].log.logs, run[k].clients[c].lastSequence) < |run[k].log.logs|
  {
    AlwaysInv(run, steps, k);
    forall c | c in run[k].clients
      ensures Find(run[k].log.logs, run[k].clients[c].lastSequence) < |run[k].log.logs|
    {
      ServedOne(run[k], c);
      Located(run[k].log, run[k].arrivals, run[k].purged, run[k].clients[c]);
    }
  }
}
