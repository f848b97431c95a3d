/** Since when a user sees a channel, relative to a clock (auth/user.go:221-259, 446-533). */
module ClockGrants {
  import opened Options
  import opened TimedSets
  import opened VbSeqs

  /** A role or a user: `docVbNo` is the vbucket of its document. */
  datatype Principal = Principal(name: string, channels: TimedEntries, docVbNo: VbNo)

  /** A grant of a channel. `existing`: the user already had it at the clock. */
  datatype Grant = Grant(existing: bool, at: VbSeq, trigger: VbSeq)

  // ---- single grants

  function WithVbNo(v: VbSequence, docVbNo: VbNo): VbSeq {
    VbSeq(if v.vbNo.Some? then v.vbNo.value else docVbNo, v.sequence)
  }

  function CanSeeChannelSinceVbSeq(p: Principal, channel: string): Option<VbSeq> {
    if channel in p.channels then Some(WithVbNo(p.channels[channel], p.docVbNo))
    else if STAR in p.channels then Some(WithVbNo(p.channels[STAR], p.docVbNo))
    else None
  }

  /** A role's channel is the user's once the user has the role and the role has the channel. */
  function CalculateRoleChannelGrant(roleGrant: VbSeq, channelGrant: VbSeq, clock: map<nat, nat>): (g: Grant)
    ensures g.existing <==> LessThanOrEqualsClock(roleGrant, clock) && LessThanOrEqualsClock(channelGrant, clock)
    ensures g.existing <==> LessThanOrEqualsClock(g.at, clock)
    ensures g.at == roleGrant || g.at == channelGrant
    ensures LessThanOrEqualsClock(roleGrant, clock) == LessThanOrEqualsClock(channelGrant, clock) ==>
              !Before(g.at, roleGrant) && !Before(g.at, channelGrant)
    ensures g.trigger ==
      if LessThanOrEqualsClock(roleGrant, clock) || LessThanOrEqualsClock(channelGrant, clock) then NoSeq
      else if g.at == roleGrant then channelGrant
      else roleGrant
  {
    var channelIsLater := CompareVbSequence(channelGrant, roleGrant) == GreaterThan;
    if LessThanOrEqualsClock(roleGrant, clock) then
      if LessThanOrEqualsClock(channelGrant, clock) then
        Grant(true, if channelIsLater then channelGrant else roleGrant, NoSeq)
      else Grant(false, channelGrant, NoSeq)
    else if LessThanOrEqualsClock(channelGrant, clock) then Grant(false, roleGrant, NoSeq)
    else if channelIsLater then Grant(false, channelGrant, roleGrant)
    else Grant(false, roleGrant, channelGrant)
  }

  // ---- all grants of a channel, in the order they are looked at

  function OwnGrants(user: Principal, channel: string, clock: map<nat, nat>): seq<Grant> {
    match CanSeeChannelSinceVbSeq(user, channel)
    case None => []
    case Some(at) => [Grant(LessThanOrEqualsClock(at, clock), at, NoSeq)]
  }

  function RoleGrants(user: Principal, rolesSince: TimedEntries, role: Principal, channel: string,
                      clock: map<nat, nat>): seq<Grant>
  {
    match CanSeeChannelSinceVbSeq(role, channel)
    case None => []
    case Some(at) =>
      var roleGrant := if role.name in rolesSince then rolesSince[role.name] else Simple(0);
      if roleGrant.sequence == 0 then []
      else [CalculateRoleChannelGrant(WithVbNo(roleGrant, user.docVbNo), at, clock)]
  }

  function Grants(user: Principal, rolesSince: TimedEntries, roles: seq<Principal>, channel: string,
                  clock: map<nat, nat>): seq<Grant>
  {
    if roles == [] then OwnGrants(user, channel, clock)
    else
      var n := |roles| - 1;
      Grants(user, rolesSince, roles[..n], channel, clock) + RoleGrants(user, rolesSince, roles[n], channel, clock)
  }

  /** What the two accumulators hold: the grants of one kind, each giving way to the next if that is earlier. */
  function Held(grants: seq<Grant>, existing: bool): Grant {
    if grants == [] then Grant(existing, NoSeq, NoSeq)
    else
      var n := |grants| - 1;
      var held := Held(grants[..n], existing);
      if grants[n].existing == existing && GivesWay(held.at, grants[n].at) then grants[n] else held
  }

  datatype Since = Since(at: VbSeq, trigger: VbSeq, ok: bool)

  function Answer(grants: seq<Grant>): Since {
    var existing, new' := Held(grants, true), Held(grants, false);
    if existing.at.sequence != 0 then Since(existing.at, NoSeq, true)
    else if new'.at.sequence != 0 then Since(new'.at, new'.trigger, true)
    else Since(NoSeq, NoSeq, false)
  }

  lemma HeldOne(grants: seq<Grant>)
    requires |grants| == 1
    ensures Held(grants, grants[0].existing) == grants[0]
    ensures Held(grants, !grants[0].existing) == Grant(!grants[0].existing, NoSeq, NoSeq)
  {
    assert grants[..0] == [];
  }

  lemma HeldMore(grants: seq<Grant>, g: Grant)
    ensures forall existing ::
      var held := Held(grants, existing);
      Held(grants + [g], existing) == if g.existing == existing && GivesWay(held.at, g.at) then g else held
  {
    assert (grants + [g])[..|grants|] == grants;
  }

  // ---- what is held

  ghost predicate Offers(grants: seq<Grant>, existing: bool, k: int) {
    0 <= k < |grants| && grants[k].existing == existing
  }

  /** A usable grant of that kind, before which no other usable one comes. */
  ghost predicate IsLeast(m: VbSeq, grants: seq<Grant>, existing: bool) {
    && m.sequence != 0
    && (exists k :: Offers(grants, existing, k) && grants[k].at == m)
    && forall k :: Offers(grants, existing, k) && grants[k].at.sequence != 0 ==> !Before(grants[k].at, m)
  }

  /** A grant at sequence zero that `m` gives way to: it empties the accumulator. */
  predicate Empties(g: Grant, existing: bool, m: VbSeq) {
    g.existing == existing && g.at.sequence == 0 && g.at.vb <= m.vb
  }

  /** `m` is seen after the last grant that would empty it. */
  ghost predicate Survives(m: VbSeq, grants: seq<Grant>, existing: bool) {
    exists k :: SurvivesFrom(m, grants, existing, k)
  }

  ghost predicate SurvivesFrom(m: VbSeq, grants: seq<Grant>, existing: bool, k: int) {
    && Offers(grants, existing, k) && grants[k].at == m
    && forall j :: k < j < |grants| ==> !Empties(grants[j], existing, m)
  }

  ghost predicate NothingBefore(m: VbSeq, grants: seq<Grant>, existing: bool) {
    forall k :: Offers(grants, existing, k) && grants[k].at.sequence != 0 ==> !Before(grants[k].at, m)
  }

  lemma {:induction false} HeldIff(m: VbSeq, grants: seq<Grant>, existing: bool)
    requires m.sequence != 0 && NothingBefore(m, grants, existing)
    ensures Held(grants, existing).at == m <==> Survives(m, grants, existing)
  {
    if grants != [] {
      var n := |grants| - 1;
      assert forall k :: Offers(grants[..n], existing, k) ==> Offers(grants, existing, k);
      HeldIff(m, grants[..n], existing);
      HeldOffered(grants[..n], existing);
      SurvivesMore(m, grants, existing);
    }
  }

  lemma SurvivesMore(m: VbSeq, grants: seq<Grant>, existing: bool)
    requires grants != [] && m.sequence != 0
    ensures var n := |grants| - 1;
      Survives(m, grants, existing) <==>
        (grants[n].existing == existing && grants[n].at == m)
        || (Survives(m, grants[..n], existing) && !Empties(grants[n], existing, m))
  {
    var n := |grants| - 1;
    if k :| SurvivesFrom(m, grants, existing, k) && k < n {
      assert SurvivesFrom(m, grants[..n], existing, k);
    }
    if k :| SurvivesFrom(m, grants[..n], existing, k) && !Empties(grants[n], existing, m) {
      assert SurvivesFrom(m, grants, existing, k);
    }
    if grants[n].existing == existing && grants[n].at == m {
      assert SurvivesFrom(m, grants, existing, n);
    }
  }

  /** What is held was offered, trigger and all. */
  lemma {:induction false} HeldOffered(grants: seq<Grant>, existing: bool)
    ensures var held := Held(grants, existing);
      held == Grant(existing, NoSeq, NoSeq) || exists k :: Offers(grants, existing, k) && grants[k] == held
  {
    if grants != [] {
      var n := |grants| - 1;
      HeldOffered(grants[..n], existing);
      var held := Held(grants[..n], existing);
      if k :| Offers(grants[..n], existing, k) && grants[..n][k] == held {
        assert Offers(grants, existing, k) && grants[k] == held;
      }
      assert Offers(grants, existing, n) || grants[n].existing != existing;
    }
  }

  // ---- the answer

  ghost predicate AllExistingUsable(grants: seq<Grant>) {
    forall k :: Offers(grants, true, k) ==> grants[k].at.sequence != 0
  }

  /** A grant at or before the clock is never at sequence zero. */
  lemma {:induction false} ExistingAreUsable(user: Principal, rolesSince: TimedEntries, roles: seq<Principal>,
                                             channel: string, clock: map<nat, nat>)
    ensures AllExistingUsable(Grants(user, rolesSince, roles, channel, clock))
  {
    if roles != [] {
      ExistingAreUsable(user, rolesSince, roles[..|roles| - 1], channel, clock);
    }
  }

  /** A grant the user had at the clock wins, and of those the least: whatever the other grants are. */
  lemma ExistingWins(grants: seq<Grant>, m: VbSeq)
    requires AllExistingUsable(grants) && IsLeast(m, grants, true)
    ensures Answer(grants) == Since(m, NoSeq, true)
  {
    assert NothingBefore(m, grants, true);
    UsableSurvives(grants, true, m);
    HeldIff(m, grants, true);
  }

  lemma UsableSurvives(grants: seq<Grant>, existing: bool, m: VbSeq)
    requires exists k :: Offers(grants, existing, k) && grants[k].at == m
    requires forall k :: Offers(grants, existing, k) ==> !Empties(grants[k], existing, m)
    ensures Survives(m, grants, existing)
  {
    var k :| Offers(grants, existing, k) && grants[k].at == m;
    forall j | k < j < |grants|
      ensures !Empties(grants[j], existing, m)
    {
      assert grants[j].existing == existing ==> Offers(grants, existing, j);
    }
    assert SurvivesFrom(m, grants, existing, k);
  }

  /** Without such a grant the least new one is the answer, exactly if no grant at sequence zero in its vbucket or a
      lower one is looked at after it. */
  lemma NewWinsIff(grants: seq<Grant>, m: VbSeq)
    requires (forall k :: !Offers(grants, true, k)) && IsLeast(m, grants, false)
    ensures Answer(grants).ok && Answer(grants).at == m <==> Survives(m, grants, false)
    ensures Survives(m, grants, false) ==>
      exists k :: Offers(grants, false, k) && grants[k].at == m && grants[k].trigger == Answer(grants).trigger
  {
    assert NothingBefore(m, grants, false);
    HeldIff(m, grants, false);
    HeldOffered(grants, true);
    HeldOffered(grants, false);
  }

  /** No usable grant, no access. */
  lemma NoGrantNoAccess(grants: seq<Grant>)
    requires forall k :: 0 <= k < |grants| ==> grants[k].at.sequence == 0
    ensures !Answer(grants).ok
  {
    HeldOffered(grants, true);
    HeldOffered(grants, false);
  }

  ghost predicate AllUsable(grants: seq<Grant>) {
    forall k :: 0 <= k < |grants| ==> grants[k].at.sequence != 0
  }

  lemma {:induction false} LeastExists(grants: seq<Grant>, existing: bool) returns (m: VbSeq)
    requires AllUsable(grants) && exists k :: Offers(grants, existing, k)
    ensures IsLeast(m, grants, existing)
  {
    var n := |grants| - 1;
    var rest := grants[..n];
    if k :| Offers(rest, existing, k) {
      m := LeastExists(rest, existing);
      if grants[n].existing == existing && Before(grants[n].at, m) {
        m := grants[n].at;
      }
      LeastMore(grants, existing, m);
    } else {
      m := grants[n].at;
      assert forall k :: Offers(grants, existing, k) ==> k == n || Offers(rest, existing, k);
    }
  }

  lemma LeastMore(grants: seq<Grant>, existing: bool, m: VbSeq)
    requires grants != [] && AllUsable(grants)
    requires var n := |grants| - 1;
      var rest := grants[..n];
      || (IsLeast(m, rest, existing) && !(grants[n].existing == existing && Before(grants[n].at, m)))
      || (grants[n].existing == existing && grants[n].at == m && exists l :: IsLeast(l, rest, existing) && Before(m, l))
    ensures IsLeast(m, grants, existing)
  {
    var n := |grants| - 1;
    var rest := grants[..n];
    assert forall k :: Offers(grants, existing, k) ==> k == n || (Offers(rest, existing, k) && rest[k] == grants[k]);
    if k :| Offers(rest, existing, k) && rest[k].at == m {
      assert Offers(grants, existing, k) && grants[k].at == m;
    } else {
      assert Offers(grants, existing, n) && grants[n].at == m;
    }
  }

  /** With all grants usable, since when the user sees the channel does not depend on the order of the roles. */
  lemma AnswerUnordered(user: Principal, rolesSince: TimedEntries, roles: seq<Principal>, roles': seq<Principal>,
                        channel: string, clock: map<nat, nat>)
    requires AllUsable(Grants(user, rolesSince, roles, channel, clock)) && forall r :: r in roles <==> r in roles'
    ensures var since := Answer(Grants(user, rolesSince, roles, channel, clock));
            var since' := Answer(Grants(user, rolesSince, roles', channel, clock));
      since.at == since'.at && since.ok == since'.ok
  {
    var grants := Grants(user, rolesSince, roles, channel, clock);
    var grants' := Grants(user, rolesSince, roles', channel, clock);
    GrantsAlike(user, rolesSince, roles, roles', channel, clock);
    GrantsAlike(user, rolesSince, roles', roles, channel, clock);
    HeldUnordered(grants, grants', true);
    HeldUnordered(grants, grants', false);
  }

  /** Which grants there are depends only on which roles there are. */
  lemma {:induction false} GrantsAlike(user: Principal, rolesSince: TimedEntries, roles: seq<Principal>,
                                       roles': seq<Principal>, channel: string, clock: map<nat, nat>)
    requires forall r :: r in roles ==> r in roles'
    ensures forall g :: g in Grants(user, rolesSince, roles, channel, clock) ==>
      g in Grants(user, rolesSince, roles', channel, clock)
  {
    if roles == [] {
      RoleGrantsIn(user, rolesSince, roles', channel, clock);
    } else {
      var n := |roles| - 1;
      assert roles[n] in roles';
      GrantsAlike(user, rolesSince, roles[..n], roles', channel, clock);
      RoleGrantsIn(user, rolesSince, roles', channel, clock);
    }
  }

  lemma {:induction false} RoleGrantsIn(user: Principal, rolesSince: TimedEntries, roles: seq<Principal>,
                                        channel: string, clock: map<nat, nat>)
    ensures OwnGrants(user, channel, clock) <= Grants(user, rolesSince, roles, channel, clock)
    ensures forall r, g :: r in roles && g in RoleGrants(user, rolesSince, r, channel, clock) ==>
      g in Grants(user, rolesSince, roles, channel, clock)
  {
    if roles != [] {
      RoleGrantsIn(user, rolesSince, roles[..|roles| - 1], channel, clock);
    }
  }

  lemma HeldUnordered(grants: seq<Grant>, grants': seq<Grant>, existing: bool)
    requires AllUsable(grants) && forall g :: g in grants <==> g in grants'
    ensures Held(grants, existing).at == Held(grants', existing).at
  {
    OffersAlike(grants', grants, existing);
    if exists k :: Offers(grants, existing, k) {
      var m := LeastExists(grants, existing);
      HeldIsLeast(grants, existing, m);
      LeastAlike(grants, grants', existing, m);
      HeldIsLeast(grants', existing, m);
    } else {
      HeldOffered(grants, existing);
      HeldOffered(grants', existing);
    }
  }

  lemma OffersAlike(grants: seq<Grant>, grants': seq<Grant>, existing: bool)
    requires forall g :: g in grants ==> g in grants'
    ensures (exists k :: Offers(grants, existing, k)) ==> exists k :: Offers(grants', existing, k)
  {
    if k :| Offers(grants, existing, k) {
      assert grants[k] in grants';
      var k' :| 0 <= k' < |grants'| && grants'[k'] == grants[k];
      assert Offers(grants', existing, k');
    }
  }

  lemma HeldIsLeast(grants: seq<Grant>, existing: bool, m: VbSeq)
    requires AllUsable(grants) && IsLeast(m, grants, existing)
    ensures Held(grants, existing).at == m
  {
    assert NothingBefore(m, grants, existing);
    UsableSurvives(grants, existing, m);
    HeldIff(m, grants, existing);
  }

  lemma LeastAlike(grants: seq<Grant>, grants': seq<Grant>, existing: bool, m: VbSeq)
    requires AllUsable(grants) && IsLeast(m, grants, existing) && forall g :: g in grants <==> g in grants'
    ensures AllUsable(grants') && IsLeast(m, grants', existing)
  {
    var k :| Offers(grants, existing, k) && grants[k].at == m;
    assert grants[k] in grants';
    var k' :| 0 <= k' < |grants'| && grants'[k'] == grants[k];
    assert Offers(grants', existing, k');
    forall j | 0 <= j < |grants'|
      ensures grants'[j].at.sequence != 0
      ensures grants'[j].existing == existing ==> !Before(grants'[j].at, m)
    {
      assert grants'[j] in grants;
      var i :| 0 <= i < |grants| && grants[i] == grants'[j];
      assert grants[i].existing == existing ==> Offers(grants, existing, i);
    }
  }

  // ---- the trigger

  /** The first grant of that kind at position m. */
  ghost predicate IsFirstAt(grants: seq<Grant>, existing: bool, m: VbSeq, k: int) {
    && Offers(grants, existing, k) && grants[k].at == m
    && forall j :: 0 <= j < k && Offers(grants, existing, j) ==> grants[j].at != m
  }

  /** Of several grants at the least position, the first looked at is held. */
  lemma {:induction false} HeldIsFirst(grants: seq<Grant>, existing: bool, m: VbSeq, k: int)
    requires AllUsable(grants) && NothingBefore(m, grants, existing) && IsFirstAt(grants, existing, m, k)
    ensures Held(grants, existing) == grants[k]
  {
    var n := |grants| - 1;
    var rest := grants[..n];
    assert forall j :: Offers(rest, existing, j) ==> Offers(grants, existing, j) && rest[j] == grants[j];
    if k < n {
      assert Offers(rest, existing, k);
      HeldIsFirst(rest, existing, m, k);
      assert grants[n].existing == existing ==> Offers(grants, existing, n);
    } else {
      HeldOffered(rest, existing);
    }
  }

  lemma FirstAt(grants: seq<Grant>, existing: bool, m: VbSeq, k: int) returns (first: int)
    requires Offers(grants, existing, k) && grants[k].at == m
    ensures first <= k && IsFirstAt(grants, existing, m, first)
    decreases k
  {
    if j :| 0 <= j < k && Offers(grants, existing, j) && grants[j].at == m {
      first := FirstAt(grants, existing, m, j);
    } else {
      first := k;
    }
  }

  /** The user's own grant is the least new one; it is looked at first. */
  ghost predicate OwnIsLeast(own: seq<Grant>, grants: seq<Grant>) {
    own != [] && !own[0].existing && IsLeast(own[0].at, grants, false)
  }

  /** All new grants at the least position carry the same trigger. */
  ghost predicate SameTriggers(grants: seq<Grant>) {
    forall j, k :: AtLeast(grants, j) && AtLeast(grants, k) ==> grants[j].trigger == grants[k].trigger
  }

  ghost predicate AtLeast(grants: seq<Grant>, k: int) {
    Offers(grants, false, k) && IsLeast(grants[k].at, grants, false)
  }

  ghost predicate TriggerFixed(own: seq<Grant>, grants: seq<Grant>) {
    (exists k :: Offers(grants, true, k)) || OwnIsLeast(own, grants) || SameTriggers(grants)
  }

  ghost predicate Reordered(roles: seq<Principal>, roles': seq<Principal>) {
    multiset(roles) == multiset(roles')
  }

  /** With all grants usable the whole answer, its trigger included, is the same for every order of the roles exactly
      if there is an existing grant, or the user's own grant is the least, or all at the least position agree. */
  lemma TriggerUnorderedIff(user: Principal, rolesSince: TimedEntries, roles: seq<Principal>, channel: string,
                            clock: map<nat, nat>)
    requires AllUsable(Grants(user, rolesSince, roles, channel, clock))
    ensures (forall roles' :: Reordered(roles, roles') ==>
        Answer(Grants(user, rolesSince, roles', channel, clock)) ==
          Answer(Grants(user, rolesSince, roles, channel, clock)))
      <==> TriggerFixed(OwnGrants(user, channel, clock), Grants(user, rolesSince, roles, channel, clock))
  {
    var own, grants := OwnGrants(user, channel, clock), Grants(user, rolesSince, roles, channel, clock);
    if TriggerFixed(own, grants) {
      forall roles' | Reordered(roles, roles')
        ensures Answer(Grants(user, rolesSince, roles', channel, clock)) == Answer(grants)
      {
        FixedTriggerStays(user, rolesSince, roles, roles', channel, clock);
      }
    } else {
      TriggerVaries(user, rolesSince, roles, channel, clock);
    }
  }

  lemma SameMembers(roles: seq<Principal>, roles': seq<Principal>)
    requires Reordered(roles, roles')
    ensures forall r :: r in roles <==> r in roles'
  {
    assert forall r :: r in roles <==> r in multiset(roles);
    assert forall r :: r in roles' <==> r in multiset(roles');
  }

  lemma FixedTriggerStays(user: Principal, rolesSince: TimedEntries, roles: seq<Principal>, roles': seq<Principal>,
                          channel: string, clock: map<nat, nat>)
    requires AllUsable(Grants(user, rolesSince, roles, channel, clock)) && Reordered(roles, roles')
    requires TriggerFixed(OwnGrants(user, channel, clock), Grants(user, rolesSince, roles, channel, clock))
    ensures Answer(Grants(user, rolesSince, roles', channel, clock)) ==
      Answer(Grants(user, rolesSince, roles, channel, clock))
  {
    SameMembers(roles, roles');
    AnswerUnordered(user, rolesSince, roles, roles', channel, clock);
    GrantsAlike(user, rolesSince, roles, roles', channel, clock);
    GrantsAlike(user, rolesSince, roles', roles, channel, clock);
    RoleGrantsIn(user, rolesSince, roles, channel, clock);
    RoleGrantsIn(user, rolesSince, roles', channel, clock);
    SameAnswer(OwnGrants(user, channel, clock), Grants(user, rolesSince, roles, channel, clock),
               Grants(user, rolesSince, roles', channel, clock));
  }

  lemma SameAnswer(own: seq<Grant>, grants: seq<Grant>, grants': seq<Grant>)
    requires AllUsable(grants) && own <= grants && own <= grants' && TriggerFixed(own, grants)
    requires forall g :: g in grants <==> g in grants'
    ensures Answer(grants') == Answer(grants)
  {
    HeldUnordered(grants, grants', true);
    HeldUnordered(grants, grants', false);
    OffersAlike(grants, grants', true);
    OffersAlike(grants', grants, true);
    if exists k :: Offers(grants, true, k) {
      var m := LeastExists(grants, true);
      HeldIsLeast(grants, true, m);
    } else if exists k :: Offers(grants, false, k) {
      SameNewHeld(own, grants, grants');
    } else {
      OffersAlike(grants', grants, false);
      HeldOffered(grants, false);
      HeldOffered(grants', false);
    }
  }

  lemma SameNewHeld(own: seq<Grant>, grants: seq<Grant>, grants': seq<Grant>)
    requires AllUsable(grants) && own <= grants && own <= grants'
    requires (forall g :: g in grants <==> g in grants') && (exists k :: Offers(grants, false, k))
    requires OwnIsLeast(own, grants) || SameTriggers(grants)
    ensures Held(grants, false).trigger == Held(grants', false).trigger
  {
    var m := LeastExists(grants, false);
    LeastAlike(grants, grants', false, m);
    if OwnIsLeast(own, grants) {
      LeastAlike(grants, grants', false, own[0].at);
      HeldIsFirst(grants, false, own[0].at, 0);
      HeldIsFirst(grants', false, own[0].at, 0);
    } else {
      HeldIsLeast(grants, false, m);
      HeldIsLeast(grants', false, m);
      HeldOffered(grants, false);
      HeldOffered(grants', false);
      var k :| Offers(grants, false, k) && grants[k] == Held(grants, false);
      assert Held(grants', false) in grants;
      var j :| 0 <= j < |grants| && grants[j] == Held(grants', false);
      assert AtLeast(grants, j) && AtLeast(grants, k);
    }
  }

  // ---- a trigger that is not fixed

  function ToFront(roles: seq<Principal>, a: nat): seq<Principal>
    requires a < |roles|
  {
    [roles[a]] + roles[..a] + roles[a + 1..]
  }

  lemma ToFrontReorders(roles: seq<Principal>, a: nat)
    requires a < |roles|
    ensures Reordered(roles, ToFront(roles, a))
  {
    assert roles == roles[..a] + [roles[a]] + roles[a + 1..];
  }

  lemma {:induction false} GrantsPrefix(user: Principal, rolesSince: TimedEntries, front: seq<Principal>,
                                        back: seq<Principal>, channel: string, clock: map<nat, nat>)
    ensures Grants(user, rolesSince, front, channel, clock) <= Grants(user, rolesSince, front + back, channel, clock)
  {
    if back == [] {
      assert front + back == front;
    } else {
      var n := |back| - 1;
      GrantsPrefix(user, rolesSince, front, back[..n], channel, clock);
      assert (front + back)[..|front| + n] == front + back[..n];
    }
  }

  /** With a role in front whose grant is at the least position, its trigger is the answer's. */
  lemma FrontDecides(user: Principal, rolesSince: TimedEntries, roles: seq<Principal>, a: nat, channel: string,
                     clock: map<nat, nat>, g: Grant)
    requires AllUsable(Grants(user, rolesSince, roles, channel, clock)) && a < |roles|
    requires forall k :: !Offers(Grants(user, rolesSince, roles, channel, clock), true, k)
    requires RoleGrants(user, rolesSince, roles[a], channel, clock) == [g]
    requires IsLeast(g.at, Grants(user, rolesSince, roles, channel, clock), false)
    requires !OwnIsLeast(OwnGrants(user, channel, clock), Grants(user, rolesSince, roles, channel, clock))
    ensures Answer(Grants(user, rolesSince, ToFront(roles, a), channel, clock)) == Since(g.at, g.trigger, true)
  {
    var roles' := ToFront(roles, a);
    var own := OwnGrants(user, channel, clock);
    var grants, grants' := Grants(user, rolesSince, roles, channel, clock),
      Grants(user, rolesSince, roles', channel, clock);
    ToFrontReorders(roles, a);
    GrantsReordered(user, rolesSince, roles, roles', channel, clock);
    FrontGrants(user, rolesSince, roles, a, channel, clock, g);
    FirstDecides(own, g, grants, grants');
  }

  lemma GrantsReordered(user: Principal, rolesSince: TimedEntries, roles: seq<Principal>, roles': seq<Principal>,
                        channel: string, clock: map<nat, nat>)
    requires Reordered(roles, roles')
    ensures forall g :: g in Grants(user, rolesSince, roles, channel, clock) <==>
      g in Grants(user, rolesSince, roles', channel, clock)
  {
    SameMembers(roles, roles');
    GrantsAlike(user, rolesSince, roles, roles', channel, clock);
    GrantsAlike(user, rolesSince, roles', roles, channel, clock);
  }

  /** The user's own grants and that of the role in front are looked at first. */
  lemma FrontGrants(user: Principal, rolesSince: TimedEntries, roles: seq<Principal>, a: nat, channel: string,
                    clock: map<nat, nat>, g: Grant)
    requires a < |roles| && RoleGrants(user, rolesSince, roles[a], channel, clock) == [g]
    ensures OwnGrants(user, channel, clock) + [g] <=
      Grants(user, rolesSince, ToFront(roles, a), channel, clock)
  {
    assert [roles[a]][..0] == [];
    assert Grants(user, rolesSince, [roles[a]], channel, clock) == OwnGrants(user, channel, clock) + [g];
    GrantsPrefix(user, rolesSince, [roles[a]], roles[..a] + roles[a + 1..], channel, clock);
    assert ToFront(roles, a) == [roles[a]] + (roles[..a] + roles[a + 1..]);
  }

  lemma FirstDecides(own: seq<Grant>, g: Grant, grants: seq<Grant>, grants': seq<Grant>)
    requires AllUsable(grants) && (forall x :: x in grants <==> x in grants')
    requires (forall k :: !Offers(grants, true, k)) && !OwnIsLeast(own, grants) && IsLeast(g.at, grants, false)
    requires |own| <= 1 && own + [g] <= grants'
    ensures Answer(grants') == Since(g.at, g.trigger, true)
  {
    LeastAlike(grants, grants', false, g.at);
    OffersAlike(grants', grants, true);
    if OwnIsLeast(own, grants') {
      LeastAlike(grants', grants, false, own[0].at);
    }
    FirstIsTheRole(own, g, grants');
    HeldIsFirst(grants', false, g.at, |own|);
    HeldOffered(grants', true);
  }

  lemma FirstIsTheRole(own: seq<Grant>, g: Grant, grants: seq<Grant>)
    requires |own| <= 1 && own + [g] <= grants && IsLeast(g.at, grants, false)
    requires (forall k :: !Offers(grants, true, k)) && !OwnIsLeast(own, grants)
    ensures IsFirstAt(grants, false, g.at, |own|)
  {
    assert grants[|own|] == g;
    assert !Offers(grants, true, |own|);
    if own != [] {
      assert grants[0] == own[0];
      assert !Offers(grants, true, 0);
    }
  }

  /** Where a grant comes from. */
  lemma {:induction false} GrantSource(user: Principal, rolesSince: TimedEntries, roles: seq<Principal>,
                                       channel: string, clock: map<nat, nat>, g: Grant)
    requires g in Grants(user, rolesSince, roles, channel, clock)
    ensures g in OwnGrants(user, channel, clock)
      || exists a :: 0 <= a < |roles| && RoleGrants(user, rolesSince, roles[a], channel, clock) == [g]
  {
    if roles != [] {
      var n := |roles| - 1;
      if g in Grants(user, rolesSince, roles[..n], channel, clock) {
        GrantSource(user, rolesSince, roles[..n], channel, clock, g);
      } else {
        assert RoleGrants(user, rolesSince, roles[n], channel, clock) == [g];
      }
    }
  }

  lemma TriggerVaries(user: Principal, rolesSince: TimedEntries, roles: seq<Principal>, channel: string,
                      clock: map<nat, nat>)
    requires AllUsable(Grants(user, rolesSince, roles, channel, clock))
    requires !TriggerFixed(OwnGrants(user, channel, clock), Grants(user, rolesSince, roles, channel, clock))
    ensures exists roles' ::
      && Reordered(roles, roles')
      && Answer(Grants(user, rolesSince, roles', channel, clock)) !=
         Answer(Grants(user, rolesSince, roles, channel, clock))
  {
    var grants := Grants(user, rolesSince, roles, channel, clock);
    var j, k :| AtLeast(grants, j) && AtLeast(grants, k) && grants[j].trigger != grants[k].trigger;
    var a := RoleBehind(user, rolesSince, roles, channel, clock, grants[j]);
    var b := RoleBehind(user, rolesSince, roles, channel, clock, grants[k]);
    ToFrontReorders(roles, a);
    ToFrontReorders(roles, b);
    FrontDecides(user, rolesSince, roles, a, channel, clock, grants[j]);
    FrontDecides(user, rolesSince, roles, b, channel, clock, grants[k]);
  }

  lemma RoleBehind(user: Principal, rolesSince: TimedEntries, roles: seq<Principal>, channel: string,
                   clock: map<nat, nat>, g: Grant) returns (a: nat)
    requires g in Grants(user, rolesSince, roles, channel, clock) && !g.existing
    requires IsLeast(g.at, Grants(user, rolesSince, roles, channel, clock), false)
    requires !OwnIsLeast(OwnGrants(user, channel, clock), Grants(user, rolesSince, roles, channel, clock))
    ensures a < |roles| && RoleGrants(user, rolesSince, roles[a], channel, clock) == [g]
  {
    GrantSource(user, rolesSince, roles, channel, clock, g);
    a :| 0 <= a < |roles| && RoleGrants(user, rolesSince, roles[a], channel, clock) == [g];
  }

  /** Two roles held since (5, 9), with the channel since (1, 3) and (1, 4): the trigger is that of the first. */
  lemma TriggerFollowsOrder()
    ensures var user := Principal("u", map[], 0);
      var since := map["r" := VbSequence(Some(5), 9), "s" := VbSequence(Some(5), 9)];
      var r, s := Principal("r", map["c" := VbSequence(Some(1), 3)], 0),
        Principal("s", map["c" := VbSequence(Some(1), 4)], 0);
      && Answer(Grants(user, since, [r, s], "c", map[])) == Since(VbSeq(5, 9), VbSeq(1, 3), true)
      && Answer(Grants(user, since, [s, r], "c", map[])) == Since(VbSeq(5, 9), VbSeq(1, 4), true)
  {
    var user := Principal("u", map[], 0);
    var since := map["r" := VbSequence(Some(5), 9), "s" := VbSequence(Some(5), 9)];
    var r, s := Principal("r", map["c" := VbSequence(Some(1), 3)], 0),
      Principal("s", map["c" := VbSequence(Some(1), 4)], 0);
    var g, h := Grant(false, VbSeq(5, 9), VbSeq(1, 3)), Grant(false, VbSeq(5, 9), VbSeq(1, 4));
    assert RoleGrants(user, since, r, "c", map[]) == [g];
    assert RoleGrants(user, since, s, "c", map[]) == [h];
    TwoGrants(user, since, r, s, "c", map[], g, h);
    TwoGrants(user, since, s, r, "c", map[], h, g);
  }

  /** A role whose channel grant has no sequence yet hides the access that another role gives, if it comes last. */
  lemma ZeroGrantHides()
    ensures var user := Principal("u", map[], 0);
      var since := map["good" := VbSequence(Some(1), 1), "zero" := VbSequence(Some(1), 1)];
      var good, zero := Principal("good", map["c" := VbSequence(Some(5), 9)], 3),
        Principal("zero", map["c" := Simple(0)], 2);
      && Answer(Grants(user, since, [zero, good], "c", map[1 := 1])) == Since(VbSeq(5, 9), NoSeq, true)
      && Answer(Grants(user, since, [good, zero], "c", map[1 := 1])) == Since(NoSeq, NoSeq, false)
  {
    var user := Principal("u", map[], 0);
    var since := map["good" := VbSequence(Some(1), 1), "zero" := VbSequence(Some(1), 1)];
    var good, zero := Principal("good", map["c" := VbSequence(Some(5), 9)], 3),
      Principal("zero", map["c" := Simple(0)], 2);
    var g, z := Grant(false, VbSeq(5, 9), NoSeq), Grant(false, VbSeq(2, 0), NoSeq);
    assert RoleGrants(user, since, good, "c", map[1 := 1]) == [g];
    assert RoleGrants(user, since, zero, "c", map[1 := 1]) == [z];
    TwoGrants(user, since, good, zero, "c", map[1 := 1], g, z);
    TwoGrants(user, since, zero, good, "c", map[1 := 1], z, g);
  }

  lemma TwoGrants(user: Principal, since: TimedEntries, a: Principal, b: Principal, channel: string,
                  clock: map<nat, nat>, g: Grant, h: Grant)
    requires OwnGrants(user, channel, clock) == [] && !g.existing && !h.existing
    requires RoleGrants(user, since, a, channel, clock) == [g] && RoleGrants(user, since, b, channel, clock) == [h]
    ensures var held := if GivesWay(g.at, h.at) then h else g;
      Answer(Grants(user, since, [a, b], channel, clock)) ==
      if held.at.sequence != 0 then Since(held.at, held.trigger, true) else Since(NoSeq, NoSeq, false)
  {
    assert [a, b][..1] == [a] && [a][..0] == [];
    assert Grants(user, since, [a], channel, clock) == [g];
    assert Grants(user, since, [a, b], channel, clock) == [g] + [h];
    HeldOne([g]);
    HeldMore([g], h);
  }
}
