/** Which channels a user sees and since when, from the user's own grants and those of the user's roles
    (auth/user.go:279-317, auth/role.go:138-140), and the grants that documents give (db/crud.go:1555-1580). */
module ChannelGrants {
  import opened Options
  import opened TimedSets

  datatype Role = Role(name: string, channels: TimedEntries)

  // ---- one channel over several sets merged in turn

  /** A set of channels, none of them granted before `since`. */
  datatype Layer = Layer(channels: TimedEntries, since: Uint64)

  function InheritedEntry(own: Option<VbSequence>, layers: seq<Layer>, channel: string): Option<VbSequence> {
    if layers == [] then own
    else
      var n := |layers| - 1;
      MergedEntry(InheritedEntry(own, layers[..n], channel), Lookup(layers[n].channels, channel), layers[n].since)
  }

  /** The sequence from which a layer gives the channel. */
  function GrantAt(layer: Layer, channel: string): Uint64
    requires channel in layer.channels
  {
    Later(layer.channels[channel].sequence, layer.since)
  }

  ghost predicate Global(layers: seq<Layer>, channel: string) {
    forall k :: 0 <= k < |layers| && channel in layers[k].channels ==> layers[k].channels[channel].vbNo == None
  }

  ghost predicate Gives(layers: seq<Layer>, channel: string, at: Uint64) {
    exists k :: 0 <= k < |layers| && channel in layers[k].channels && GrantAt(layers[k], channel) == at
  }

  /** `r` is the earliest of the own grant and all that the layers give, a zero counting as no grant. */
  ghost predicate IsEarliest(r: Option<VbSequence>, own: Option<VbSequence>, layers: seq<Layer>, channel: string) {
    && (forall at :: Gives(layers, channel, at) ==> !Earlier(at, r))
    && (r == own || (r.Some? && r.value.vbNo == None
                     && Gives(layers, channel, r.value.sequence) && Earlier(r.value.sequence, own)))
  }

  /** A user's inherited grant of a channel is the earliest one. */
  lemma {:induction false} InheritedIsEarliest(own: Option<VbSequence>, layers: seq<Layer>, channel: string)
    requires Global(layers, channel)
    ensures IsEarliest(InheritedEntry(own, layers, channel), own, layers, channel)
  {
    if layers != [] {
      var n := |layers| - 1;
      InheritedIsEarliest(own, layers[..n], channel);
      EarliestStep(InheritedEntry(own, layers[..n], channel), own, layers, channel);
    }
  }

  lemma GivesMore(layers: seq<Layer>, channel: string, at: Uint64)
    requires layers != []
    ensures var n := |layers| - 1;
      Gives(layers, channel, at) <==>
        Gives(layers[..n], channel, at) || (channel in layers[n].channels && GrantAt(layers[n], channel) == at)
  {
    var n := |layers| - 1;
    if k :| 0 <= k < |layers| && channel in layers[k].channels && GrantAt(layers[k], channel) == at && k < n {
      assert layers[..n][k] == layers[k];
    }
    if k :| 0 <= k < n && channel in layers[..n][k].channels && GrantAt(layers[..n][k], channel) == at {
      assert layers[..n][k] == layers[k];
    }
  }

  lemma EarliestStep(r: Option<VbSequence>, own: Option<VbSequence>, layers: seq<Layer>, channel: string)
    requires layers != [] && Global(layers, channel) && IsEarliest(r, own, layers[..|layers| - 1], channel)
    ensures var last := layers[|layers| - 1];
      IsEarliest(MergedEntry(r, Lookup(last.channels, channel), last.since), own, layers, channel)
  {
    var n := |layers| - 1;
    var r' := MergedEntry(r, Lookup(layers[n].channels, channel), layers[n].since);
    forall at | Gives(layers, channel, at)
      ensures !Earlier(at, r')
    {
      GivesMore(layers, channel, at);
    }
    if r'.Some? {
      GivesMore(layers, channel, r'.value.sequence);
    }
  }

  /** There is only one earliest grant. */
  lemma EarliestIsUnique(r: Option<VbSequence>, r': Option<VbSequence>, own: Option<VbSequence>, layers: seq<Layer>,
                         channel: string)
    requires IsEarliest(r, own, layers, channel) && IsEarliest(r', own, layers, channel)
    ensures r == r'
  {}

  /** The order of the layers, and having one twice, make no difference to global grants. */
  lemma GlobalUnordered(own: Option<VbSequence>, layers: seq<Layer>, layers': seq<Layer>, channel: string)
    requires Global(layers, channel) && (forall layer :: layer in layers <==> layer in layers')
    ensures InheritedEntry(own, layers, channel) == InheritedEntry(own, layers', channel)
  {
    forall k | 0 <= k < |layers'| && channel in layers'[k].channels
      ensures layers'[k].channels[channel].vbNo == None
    {
      assert layers'[k] in layers;
    }
    var r := InheritedEntry(own, layers, channel);
    InheritedIsEarliest(own, layers, channel);
    InheritedIsEarliest(own, layers', channel);
    forall at: Uint64
      ensures Gives(layers, channel, at) <==> Gives(layers', channel, at)
    {
      GivesAlike(layers, layers', channel, at);
      GivesAlike(layers', layers, channel, at);
    }
    EarliestIsUnique(r, InheritedEntry(own, layers', channel), own, layers, channel);
  }

  lemma GivesAlike(layers: seq<Layer>, layers': seq<Layer>, channel: string, at: Uint64)
    requires forall layer :: layer in layers ==> layer in layers'
    ensures Gives(layers, channel, at) ==> Gives(layers', channel, at)
  {
    if k :| 0 <= k < |layers| && channel in layers[k].channels && GrantAt(layers[k], channel) == at {
      assert layers[k] in layers';
      var k' :| 0 <= k' < |layers'| && layers'[k'] == layers[k];
    }
  }

  // ---- grants that carry a vbucket

  predicate Replaces(layer: Layer, channel: string) {
    channel in layer.channels && layer.channels[channel].vbNo.Some?
  }

  ghost predicate IsLastReplacing(layers: seq<Layer>, channel: string, k: nat) {
    && k < |layers| && Replaces(layers[k], channel)
    && forall j :: k < j < |layers| ==> !Replaces(layers[j], channel)
  }

  /** A grant that carries a vbucket replaces what was there: of the own grant and the layers before the last such one
      nothing is left, and that one takes the place of the own grant for those after it. */
  lemma {:induction false} LastReplacingCounts(own: Option<VbSequence>, layers: seq<Layer>, channel: string, k: nat)
    requires IsLastReplacing(layers, channel, k)
    ensures InheritedEntry(own, layers, channel) ==
      InheritedEntry(Some(layers[k].channels[channel]), layers[k + 1..], channel)
    ensures var replacing := Some(layers[k].channels[channel]);
      IsEarliest(InheritedEntry(own, layers, channel), replacing, layers[k + 1..], channel)
  {
    var n := |layers| - 1;
    var after := layers[k + 1..];
    if k < n {
      LastReplacingCounts(own, layers[..n], channel, k);
      assert layers[..n][k + 1..] == after[..|after| - 1];
    }
    assert Global(after, channel);
    InheritedIsEarliest(Some(layers[k].channels[channel]), after, channel);
  }

  ghost predicate SameLayers(layers: seq<Layer>, layers': seq<Layer>) {
    multiset(layers) == multiset(layers')
  }

  /** The order cannot show: no grant carries a vbucket, or all that do are the same and no other is earlier. */
  ghost predicate OrderHidden(layers: seq<Layer>, channel: string) {
    || Global(layers, channel)
    || exists v: VbSequence :: AllGive(layers, channel, v)
  }

  ghost predicate AllGive(layers: seq<Layer>, channel: string, v: VbSequence) {
    v.vbNo.Some? && forall k :: 0 <= k < |layers| ==> Yields(layers[k], channel, v)
  }

  /** The layer's grant of the channel, if any, is v or no earlier than v. */
  predicate Yields(layer: Layer, channel: string, v: VbSequence) {
    channel in layer.channels ==>
      if Replaces(layer, channel) then layer.channels[channel] == v else !Earlier(GrantAt(layer, channel), Some(v))
  }

  /** What a channel's grant is depends on the order of the layers unless that cannot show. */
  lemma UnorderedIff(own: Option<VbSequence>, layers: seq<Layer>, channel: string)
    ensures (forall layers' :: SameLayers(layers, layers') ==>
              InheritedEntry(own, layers', channel) == InheritedEntry(own, layers, channel))
            <==> OrderHidden(layers, channel)
  {
    if OrderHidden(layers, channel) {
      forall layers' | SameLayers(layers, layers')
        ensures InheritedEntry(own, layers', channel) == InheritedEntry(own, layers, channel)
      {
        HiddenStays(own, layers, layers', channel);
      }
    } else {
      OrderShows(own, layers, channel);
    }
  }

  lemma LayerMembers(layers: seq<Layer>, layers': seq<Layer>)
    requires SameLayers(layers, layers')
    ensures forall layer :: layer in layers <==> layer in layers'
  {
    assert forall layer :: layer in layers <==> layer in multiset(layers);
    assert forall layer :: layer in layers' <==> layer in multiset(layers');
  }

  lemma HiddenStays(own: Option<VbSequence>, layers: seq<Layer>, layers': seq<Layer>, channel: string)
    requires SameLayers(layers, layers') && OrderHidden(layers, channel)
    ensures InheritedEntry(own, layers', channel) == InheritedEntry(own, layers, channel)
  {
    LayerMembers(layers, layers');
    if Global(layers, channel) {
      GlobalUnordered(own, layers, layers', channel);
    } else {
      var v: VbSequence :| AllGive(layers, channel, v);
      var k :| 0 <= k < |layers| && Replaces(layers[k], channel);
      assert layers[k] in layers';
      var k' :| 0 <= k' < |layers'| && layers'[k'] == layers[k];
      forall j | 0 <= j < |layers'|
        ensures layers'[j] in layers
      {
      }
      AllGiveThat(own, layers, channel, v, k);
      AllGiveThat(own, layers', channel, v, k');
    }
  }

  /** If all that carry a vbucket are the same and no other is earlier, that is the grant. */
  lemma {:induction false} AllGiveThat(own: Option<VbSequence>, layers: seq<Layer>, channel: string, v: VbSequence,
                                       k: nat)
    requires AllGive(layers, channel, v) && k < |layers| && Replaces(layers[k], channel)
    ensures InheritedEntry(own, layers, channel) == Some(v)
  {
    var n := |layers| - 1;
    if k < n {
      AllGiveThat(own, layers[..n], channel, v, k);
    }
  }

  function ToEnd(layers: seq<Layer>, k: nat): seq<Layer>
    requires k < |layers|
  {
    layers[..k] + layers[k + 1..] + [layers[k]]
  }

  lemma ToEndSame(layers: seq<Layer>, k: nat)
    requires k < |layers|
    ensures SameLayers(layers, ToEnd(layers, k))
  {
    assert layers == layers[..k] + [layers[k]] + layers[k + 1..];
  }

  /** A layer that comes last has the last word. */
  lemma LastWord(own: Option<VbSequence>, layers: seq<Layer>, channel: string, k: nat)
    requires k < |layers|
    ensures InheritedEntry(own, ToEnd(layers, k), channel) ==
      MergedEntry(InheritedEntry(own, layers[..k] + layers[k + 1..], channel), Lookup(layers[k].channels, channel),
                  layers[k].since)
  {
    var rest := layers[..k] + layers[k + 1..];
    assert ToEnd(layers, k)[..|rest|] == rest;
  }

  lemma OrderShows(own: Option<VbSequence>, layers: seq<Layer>, channel: string)
    requires !OrderHidden(layers, channel)
    ensures exists layers' ::
      SameLayers(layers, layers') && InheritedEntry(own, layers', channel) != InheritedEntry(own, layers, channel)
  {
    var k :| 0 <= k < |layers| && channel in layers[k].channels && layers[k].channels[channel].vbNo != None;
    var v := layers[k].channels[channel];
    ToEndSame(layers, k);
    LastWord(own, layers, channel, k);
    assert InheritedEntry(own, ToEnd(layers, k), channel) == Some(v);
    if InheritedEntry(own, layers, channel) == Some(v) {
      assert !AllGive(layers, channel, v);
      var j :| 0 <= j < |layers| && !Yields(layers[j], channel, v);
      ToEndSame(layers, j);
      LastWord(own, layers, channel, j);
      if Replaces(layers[j], channel) {
        assert InheritedEntry(own, ToEnd(layers, j), channel) == Some(layers[j].channels[channel]);
      } else {
        GlobalLast(own, layers, channel, j);
      }
    }
  }

  /** A global grant that comes last is no later than itself, so it is not the entry of a later one. */
  lemma GlobalLast(own: Option<VbSequence>, layers: seq<Layer>, channel: string, j: nat)
    requires j < |layers| && channel in layers[j].channels && !Replaces(layers[j], channel)
    ensures !Earlier(GrantAt(layers[j], channel), InheritedEntry(own, ToEnd(layers, j), channel))
  {
    LastWord(own, layers, channel, j);
  }

  /** Two roles with grants that carry vbuckets, in either order. */
  lemma VbGrantsAreOrdered()
    ensures var a, b := Layer(map["c" := VbSequence(Some(1), 5)], 0), Layer(map["c" := VbSequence(Some(2), 3)], 0);
      InheritedEntry(None, [a, b], "c") != InheritedEntry(None, [b, a], "c")
  {
    var a, b := Layer(map["c" := VbSequence(Some(1), 5)], 0), Layer(map["c" := VbSequence(Some(2), 3)], 0);
    assert InheritedEntry(None, [a, b], "c") == Some(b.channels["c"]);
    assert InheritedEntry(None, [b, a], "c") == Some(a.channels["c"]);
  }

  // ---- the operations

  function RoleSince(rolesSince: TimedEntries, name: string): Uint64 {
    SequenceOf(Lookup(rolesSince, name))
  }

  ghost function Layers(roles: seq<Role>, rolesSince: TimedEntries): seq<Layer> {
    seq(|roles|, k requires 0 <= k < |roles| => Layer(roles[k].channels, RoleSince(rolesSince, roles[k].name)))
  }

  ghost predicate Inherits(inherited: TimedEntries, own: TimedEntries, layers: seq<Layer>) {
    forall channel :: Lookup(inherited, channel) == InheritedEntry(Lookup(own, channel), layers, channel)
  }

  method InheritedChannels(own: TimedEntries, roles: seq<Role>, rolesSince: TimedEntries)
    returns (inherited: TimedEntries)
    ensures Inherits(inherited, own, Layers(roles, rolesSince))
  {
    var channels := new TimedSet(own);
    ghost var layers := Layers(roles, rolesSince);
    for k := 0 to |roles|
      invariant Inherits(channels.entries, own, layers[..k])
    {
      var roleSince := RoleSince(rolesSince, roles[k].name);
      ghost var before := channels.entries;
      var _ := channels.AddAtSequence(roles[k].channels, roleSince);
      InheritsStep(before, channels.entries, own, layers, k);
    }
    assert layers[..|roles|] == layers;
    inherited := channels.entries;
  }

  /** The inherited channels do not depend on the order of the roles, as far as that cannot show. */
  lemma InheritedUnordered(inherited: TimedEntries, inherited': TimedEntries, own: TimedEntries, roles: seq<Role>,
                           roles': seq<Role>, rolesSince: TimedEntries, channel: string)
    requires Inherits(inherited, own, Layers(roles, rolesSince))
    requires Inherits(inherited', own, Layers(roles', rolesSince))
    requires multiset(roles) == multiset(roles') && OrderHidden(Layers(roles, rolesSince), channel)
    ensures Lookup(inherited, channel) == Lookup(inherited', channel)
  {
    LayersReorder(roles, roles', rolesSince);
    HiddenStays(Lookup(own, channel), Layers(roles, rolesSince), Layers(roles', rolesSince), channel);
  }

  lemma {:induction false} LayersReorder(roles: seq<Role>, roles': seq<Role>, rolesSince: TimedEntries)
    requires multiset(roles) == multiset(roles')
    ensures SameLayers(Layers(roles, rolesSince), Layers(roles', rolesSince))
  {
    if roles == [] {
      assert |roles'| == |multiset(roles')| == |multiset(roles)| == 0;
    } else {
      var n := |roles| - 1;
      var r := roles[n];
      assert r in multiset(roles');
      var k :| 0 <= k < |roles'| && roles'[k] == r;
      TakenOut(roles, n);
      TakenOut(roles', k);
      assert roles[..n] + roles[n + 1..] == roles[..n];
      SameRest(multiset(roles[..n]), multiset(roles'[..k] + roles'[k + 1..]), r);
      LayersReorder(roles[..n], roles'[..k] + roles'[k + 1..], rolesSince);
      LayersOut(roles, n, rolesSince);
      LayersOut(roles', k, rolesSince);
    }
  }

  lemma TakenOut<T>(s: seq<T>, k: nat)
    requires k < |s|
    ensures multiset(s) == multiset(s[..k] + s[k + 1..]) + multiset{s[k]}
  {
    assert s == s[..k] + [s[k]] + s[k + 1..];
  }

  lemma SameRest<T>(a: multiset<T>, b: multiset<T>, x: T)
    requires a + multiset{x} == b + multiset{x}
    ensures a == b
  {
    assert a == a + multiset{x} - multiset{x} && b == b + multiset{x} - multiset{x};
  }

  /** The layers without one role's, and that one. */
  lemma LayersOut(roles: seq<Role>, k: nat, rolesSince: TimedEntries)
    requires k < |roles|
    ensures multiset(Layers(roles, rolesSince)) ==
      multiset(Layers(roles[..k] + roles[k + 1..], rolesSince)) + multiset{Layers(roles, rolesSince)[k]}
  {
    var all := Layers(roles, rolesSince);
    TakenOut(all, k);
    assert Layers(roles[..k] + roles[k + 1..], rolesSince) == all[..k] + all[k + 1..];
  }

  lemma InheritsStep(before: TimedEntries, after: TimedEntries, own: TimedEntries, layers: seq<Layer>, k: nat)
    requires k < |layers| && Inherits(before, own, layers[..k])
    requires IsMerge(after, before, layers[k].channels, layers[k].since)
    ensures Inherits(after, own, layers[..k + 1])
  {
    assert layers[..k + 1][..k] == layers[..k];
  }

  /** The channels that documents grant a principal: all rows merged into an empty set. */
  method ComputeSequenceChannelsForPrincipal(rows: seq<TimedEntries>) returns (channels: TimedEntries)
    ensures Inherits(channels, map[], RowLayers(rows))
  {
    var channelSet := new TimedSet(map[]);
    ghost var layers := RowLayers(rows);
    for k := 0 to |rows|
      invariant Inherits(channelSet.entries, map[], layers[..k])
    {
      ghost var before := channelSet.entries;
      var _ := channelSet.Add(rows[k]);
      InheritsStep(before, channelSet.entries, map[], layers, k);
    }
    assert layers[..|rows|] == layers;
    channels := channelSet.entries;
  }

  ghost function RowLayers(rows: seq<TimedEntries>): seq<Layer> {
    seq(|rows|, k requires 0 <= k < |rows| => Layer(rows[k], 0))
  }

  /** A role gives a channel from the later of the sequence since which the user has the role and that since which the
      role has the channel. */
  predicate GivenBy(role: Role, rolesSince: TimedEntries, channel: string, at: nat) {
    && channel in role.channels
    && var held := if role.name in rolesSince then rolesSince[role.name].sequence else 0;
       at == if held < role.channels[channel].sequence then role.channels[channel].sequence else held
  }

  /** What the inherited channels are, with global grants: a channel that the user has, or that a role gives at a
      sequence that is not zero, since no later than any of these, and since exactly one of them. */
  lemma InheritedMeans(inherited: TimedEntries, own: TimedEntries, roles: seq<Role>, rolesSince: TimedEntries,
                       channel: string)
    requires Inherits(inherited, own, Layers(roles, rolesSince))
    requires forall k :: 0 <= k < |roles| && channel in roles[k].channels ==> roles[k].channels[channel].vbNo == None
    ensures channel in own ==> channel in inherited
    ensures channel in own && own[channel].sequence > 0 ==>
      0 < inherited[channel].sequence <= own[channel].sequence
    ensures forall k, at :: 0 <= k < |roles| && GivenBy(roles[k], rolesSince, channel, at) && at > 0 ==>
      channel in inherited && 0 < inherited[channel].sequence <= at
    ensures channel in inherited ==>
      || (channel in own && inherited[channel] == own[channel])
      || (inherited[channel].vbNo == None && inherited[channel].sequence > 0
          && exists k :: 0 <= k < |roles| && GivenBy(roles[k], rolesSince, channel, inherited[channel].sequence))
  {
    var layers := Layers(roles, rolesSince);
    InheritedIsEarliest(Lookup(own, channel), layers, channel);
    assert Lookup(inherited, channel) == InheritedEntry(Lookup(own, channel), layers, channel);
    forall k, at | 0 <= k < |roles| && GivenBy(roles[k], rolesSince, channel, at) && at > 0
      ensures channel in inherited && 0 < inherited[channel].sequence <= at
    {
      assert layers[k].channels == roles[k].channels && GrantAt(layers[k], channel) == at;
      assert Gives(layers, channel, at);
    }
    if channel in inherited && Lookup(inherited, channel) != Lookup(own, channel) {
      var k :| 0 <= k < |layers| && channel in layers[k].channels
        && GrantAt(layers[k], channel) == inherited[channel].sequence;
      assert GivenBy(roles[k], rolesSince, channel, inherited[channel].sequence);
    }
  }

  /** What documents grant a principal, with global grants: every channel of a row at a sequence that is not zero, since
      the least of these. */
  lemma ComputedMeans(computed: TimedEntries, rows: seq<TimedEntries>, channel: string)
    requires Inherits(computed, map[], RowLayers(rows))
    requires forall k :: 0 <= k < |rows| && channel in rows[k] ==> rows[k][channel].vbNo == None
    ensures forall k :: 0 <= k < |rows| && channel in rows[k] && rows[k][channel].sequence > 0 ==>
      channel in computed && computed[channel].sequence <= rows[k][channel].sequence
    ensures channel in computed ==>
      && computed[channel].sequence > 0
      && exists k :: 0 <= k < |rows| && channel in rows[k] && computed[channel] == rows[k][channel]
  {
    var layers := RowLayers(rows);
    InheritedIsEarliest(None, layers, channel);
    assert Lookup(computed, channel) == InheritedEntry(Lookup(map[], channel), layers, channel);
    forall k | 0 <= k < |rows| && channel in rows[k] && rows[k][channel].sequence > 0
      ensures channel in computed && computed[channel].sequence <= rows[k][channel].sequence
    {
      assert layers[k].channels == rows[k] && GrantAt(layers[k], channel) == rows[k][channel].sequence;
      assert Gives(layers, channel, rows[k][channel].sequence);
    }
    if channel in computed {
      var k :| 0 <= k < |layers| && channel in layers[k].channels
        && GrantAt(layers[k], channel) == computed[channel].sequence;
      assert layers[k].channels == rows[k];
    }
  }

  // ---- seeing a channel

  predicate Shows(channels: TimedEntries, channel: string) {
    channel in channels || STAR in channels
  }

  method CanSeeChannel(own: TimedEntries, roles: seq<Role>, channel: string) returns (can: bool)
    ensures can <==> Sees(own, roles, channel)
    ensures can <==> (
      || channel in own
      || "*" in own
      || exists k :: 0 <= k < |roles| && (channel in roles[k].channels || "*" in roles[k].channels))
  {
    if Shows(own, channel) {
      return true;
    }
    for k := 0 to |roles|
      invariant forall i :: 0 <= i < k ==> !Shows(roles[i].channels, channel)
    {
      if Shows(roles[k].channels, channel) {
        return true;
      }
    }
    return false;
  }

  ghost predicate Sees(own: TimedEntries, roles: seq<Role>, channel: string) {
    Shows(own, channel) || exists k :: 0 <= k < |roles| && Shows(roles[k].channels, channel)
  }

  /** The layer holds the channel, but at no usable sequence. */
  predicate OnlyAtZero(layer: Layer, channel: string) {
    channel in layer.channels ==> layer.channels[channel].vbNo == None && GrantAt(layer, channel) == 0
  }

  /** A channel is inherited if the user holds it or some role gives it at a usable sequence. */
  lemma {:induction false} InheritedPresence(own: Option<VbSequence>, layers: seq<Layer>, channel: string)
    ensures InheritedEntry(own, layers, channel) == None
      <==> own == None && forall k :: 0 <= k < |layers| ==> OnlyAtZero(layers[k], channel)
  {
    if layers != [] {
      var n := |layers| - 1;
      InheritedPresence(own, layers[..n], channel);
      assert forall k :: 0 <= k < n ==> layers[..n][k] == layers[k];
    }
  }

  ghost predicate GrantedAtZeroOnly(own: TimedEntries, layers: seq<Layer>, channel: string) {
    && !Shows(own, channel)
    && forall k :: 0 <= k < |layers| ==> OnlyAtZero(layers[k], channel) && OnlyAtZero(layers[k], STAR)
  }

  /** A user sees a channel exactly if that channel or the star is inherited, except one that is granted only by
      roles, at sequence zero, through roles held since sequence zero. */
  lemma SeesInherited(inherited: TimedEntries, own: TimedEntries, roles: seq<Role>, rolesSince: TimedEntries,
                      channel: string)
    requires Inherits(inherited, own, Layers(roles, rolesSince))
    ensures Shows(inherited, channel) <==>
      Sees(own, roles, channel) && !GrantedAtZeroOnly(own, Layers(roles, rolesSince), channel)
  {
    var layers := Layers(roles, rolesSince);
    assert Lookup(inherited, channel) == InheritedEntry(Lookup(own, channel), layers, channel);
    assert Lookup(inherited, STAR) == InheritedEntry(Lookup(own, STAR), layers, STAR);
    InheritedPresence(Lookup(own, channel), layers, channel);
    InheritedPresence(Lookup(own, STAR), layers, STAR);
    assert forall k :: 0 <= k < |layers| ==> layers[k].channels == roles[k].channels;
    if !GrantedAtZeroOnly(own, layers, channel) && !Shows(own, channel) {
      var k :| 0 <= k < |layers| && !(OnlyAtZero(layers[k], channel) && OnlyAtZero(layers[k], STAR));
      assert Shows(roles[k].channels, channel);
    }
  }

  /** A role held since zero that has the channel at zero: the user can see it, but does not inherit it. */
  lemma ZeroGrantIsNotInherited(inherited: TimedEntries)
    requires Inherits(inherited, map[], Layers([Role("r", map["c" := Simple(0)])], map["r" := Simple(0)]))
    ensures Sees(map[], [Role("r", map["c" := Simple(0)])], "c") && !Shows(inherited, "c")
  {
    var roles, since := [Role("r", map["c" := Simple(0)])], map["r" := Simple(0)];
    assert Shows(roles[0].channels, "c");
    assert GrantedAtZeroOnly(map[], Layers(roles, since), "c");
    SeesInherited(inherited, map[], roles, since, "c");
  }
}
