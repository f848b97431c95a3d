/** Since when a user sees a channel (auth/user.go:446-496), told from the channels of the user and of the user's
    roles. */
module ClockAccess {
  import opened TimedSets
  import opened VbSeqs
  import opened ClockGrants
  import opened ClockGrantOrder

  // ---- what the channels and roles say

  /** A sequence without a vbucket is in that of the document. */
  predicate IsAt(v: VbSequence, docVbNo: VbNo, at: VbSeq) {
    at.sequence == v.sequence && at.vb == if v.vbNo.Some? then v.vbNo.value else docVbNo
  }

  /** The user or role has the channel since `at`: by its name, or else through the star. */
  predicate HasAt(p: Principal, channel: string, at: VbSeq) {
    if channel in p.channels then IsAt(p.channels[channel], p.docVbNo, at)
    else "*" in p.channels && IsAt(p.channels["*"], p.docVbNo, at)
  }

  /** The user has the role since `held`, at a sequence that counts, and the role has the channel since `at`. */
  predicate GivesAt(user: Principal, rolesSince: TimedEntries, role: Principal, channel: string, held: VbSeq,
                     at: VbSeq)
  {
    && role.name in rolesSince && rolesSince[role.name].sequence > 0
    && IsAt(rolesSince[role.name], user.docVbNo, held)
    && HasAt(role, channel, at)
  }

  predicate AtOrBefore(at: VbSeq, clock: map<nat, nat>) {
    0 < at.sequence && at.vb in clock && at.sequence <= clock[at.vb]
  }

  predicate NotAfter(a: VbSeq, b: VbSeq) {
    a.vb < b.vb || (a.vb == b.vb && a.sequence <= b.sequence)
  }

  /** The answer is the user's own grant, or that of a role. */
  ghost predicate ComesFrom(user: Principal, rolesSince: TimedEntries, roles: seq<Principal>, channel: string,
                            clock: map<nat, nat>, since: Since)
  {
    && since.at.sequence > 0
    && ((HasAt(user, channel, since.at) && since.trigger == VbSeq(0, 0))
        || exists k, held, at :: 0 <= k < |roles| && GivesAt(user, rolesSince, roles[k], channel, held, at)
             && IsFromRole(since, held, at, clock))
  }

  /** If just one of the role and its channel is past the clock, it counts from that; otherwise from the later of the
      two. The other one is the trigger if both are past the clock. */
  predicate IsFromRole(since: Since, held: VbSeq, at: VbSeq, clock: map<nat, nat>) {
    var heldBefore, atBefore := AtOrBefore(held, clock), AtOrBefore(at, clock);
    && since.at == (if heldBefore != atBefore then (if heldBefore then at else held)
                    else if NotAfter(at, held) then held else at)
    && since.trigger == (if heldBefore || atBefore then VbSeq(0, 0) else if NotAfter(at, held) then at else held)
  }

  ghost predicate NoZeroGrants(user: Principal, rolesSince: TimedEntries, roles: seq<Principal>, channel: string) {
    && (forall at :: HasAt(user, channel, at) ==> at.sequence > 0)
    && forall k, held, at :: 0 <= k < |roles| && GivesAt(user, rolesSince, roles[k], channel, held, at) ==>
         at.sequence > 0
  }

  /** What the user had at the clock is enough to see the channel, since then or before: the user's own channel, or a
      role and its channel, which count from the later of the two. */
  ghost predicate SeesExisting(user: Principal, rolesSince: TimedEntries, roles: seq<Principal>, channel: string,
                               clock: map<nat, nat>, since: Since)
  {
    && (forall at :: HasAt(user, channel, at) && AtOrBefore(at, clock) ==>
          since.ok && AtOrBefore(since.at, clock) && NotAfter(since.at, at))
    && forall k, held, at :: 0 <= k < |roles| && GivesAt(user, rolesSince, roles[k], channel, held, at) ==>
         AtOrBefore(held, clock) && AtOrBefore(at, clock) ==>
           since.ok && AtOrBefore(since.at, clock) && NotAfterLater(since.at, held, at)
  }

  predicate NotAfterLater(a: VbSeq, b: VbSeq, c: VbSeq) {
    NotAfter(a, b) || NotAfter(a, c)
  }

  /** Every grant is enough to see the channel, since then or before. */
  ghost predicate SeesNew(user: Principal, rolesSince: TimedEntries, roles: seq<Principal>, channel: string,
                          clock: map<nat, nat>, since: Since)
  {
    && (forall at :: HasAt(user, channel, at) ==>
          since.ok && (AtOrBefore(since.at, clock) || NotAfter(since.at, at)))
    && forall k, held, at :: 0 <= k < |roles| ==>
         RoleSeesNew(user, rolesSince, roles[k], channel, clock, since, held, at)
  }

  predicate RoleSeesNew(user: Principal, rolesSince: TimedEntries, role: Principal, channel: string,
                        clock: map<nat, nat>, since: Since, held: VbSeq, at: VbSeq)
  {
    GivesAt(user, rolesSince, role, channel, held, at) ==>
      since.ok && (AtOrBefore(since.at, clock) || NotAfterLater(since.at, held, at))
  }

  // ---- the operation

  method UpdateIfEarlier(v: VbSeq, other: VbSeq) returns (v': VbSeq, updated: bool)
    ensures updated <==> GivesWay(v, other)
    ensures v' == if updated then other else v
  {
    if v.sequence == 0 || CompareVbSequence(other, v) == LessThan {
      return other, true;
    }
    return v, false;
  }

  method CanSeeChannelSinceForClock(user: Principal, rolesSince: TimedEntries, roles: seq<Principal>, channel: string,
                                    clock: map<nat, nat>)
    returns (since: Since)
    ensures since == Answer(Grants(user, rolesSince, roles, channel, clock))
    ensures SeesExisting(user, rolesSince, roles, channel, clock, since)
    ensures since.ok ==> ComesFrom(user, rolesSince, roles, channel, clock, since)
    ensures !since.ok ==> since.at == VbSeq(0, 0) && since.trigger == VbSeq(0, 0)
    ensures NoZeroGrants(user, rolesSince, roles, channel) ==>
      SeesNew(user, rolesSince, roles, channel, clock, since)
  {
    var minPreSince, minPostSince, secondaryTrigger := NoSeq, NoSeq, NoSeq;
    ghost var grants := OwnGrants(user, channel, clock);
    var userChannelSince := CanSeeChannelSinceVbSeq(user, channel);
    if userChannelSince.Some? {
      HeldOne(grants);
      if LessThanOrEqualsClock(userChannelSince.value, clock) {
        minPreSince := userChannelSince.value;
      } else {
        minPostSince := userChannelSince.value;
      }
    }
    for k := 0 to |roles|
      invariant grants == Grants(user, rolesSince, roles[..k], channel, clock)
      invariant Held(grants, true).at == minPreSince
      invariant Held(grants, false).at == minPostSince && Held(grants, false).trigger == secondaryTrigger
    {
      assert roles[..k + 1][..k] == roles[..k];
      assert grants + [] == grants;
      var roleChannelSince := CanSeeChannelSinceVbSeq(roles[k], channel);
      if roleChannelSince.Some? {
        var roleGrant := if roles[k].name in rolesSince then rolesSince[roles[k].name] else Simple(0);
        if roleGrant.sequence != 0 {
          var g := CalculateRoleChannelGrant(WithVbNo(roleGrant, user.docVbNo), roleChannelSince.value, clock);
          HeldMore(grants, g);
          if g.existing {
            var updated;
            minPreSince, updated := UpdateIfEarlier(minPreSince, g.at);
          } else {
            var updated;
            minPostSince, updated := UpdateIfEarlier(minPostSince, g.at);
            if updated {
              secondaryTrigger := g.trigger;
            }
          }
        }
      }
      grants := grants + RoleGrants(user, rolesSince, roles[k], channel, clock);
    }
    assert roles[..|roles|] == roles;
    AnswerMeans(user, rolesSince, roles, channel, clock);
    if minPreSince.sequence != 0 {
      return Since(minPreSince, NoSeq, true);
    }
    if minPostSince.sequence != 0 {
      return Since(minPostSince, secondaryTrigger, true);
    }
    return Since(NoSeq, NoSeq, false);
  }

  // ---- why

  lemma AnswerMeans(user: Principal, rolesSince: TimedEntries, roles: seq<Principal>, channel: string,
                    clock: map<nat, nat>)
    ensures var since := Answer(Grants(user, rolesSince, roles, channel, clock));
      && SeesExisting(user, rolesSince, roles, channel, clock, since)
      && (since.ok ==> ComesFrom(user, rolesSince, roles, channel, clock, since))
      && (!since.ok ==> since.at == VbSeq(0, 0) && since.trigger == VbSeq(0, 0))
      && (NoZeroGrants(user, rolesSince, roles, channel) ==> SeesNew(user, rolesSince, roles, channel, clock, since))
  {
    ExistingMeans(user, rolesSince, roles, channel, clock);
    if Answer(Grants(user, rolesSince, roles, channel, clock)).ok {
      AnswerComesFrom(user, rolesSince, roles, channel, clock);
    }
    if NoZeroGrants(user, rolesSince, roles, channel) {
      NewCounts(user, rolesSince, roles, channel, clock);
    }
  }

  lemma ExistingMeans(user: Principal, rolesSince: TimedEntries, roles: seq<Principal>, channel: string,
                      clock: map<nat, nat>)
    ensures var since := Answer(Grants(user, rolesSince, roles, channel, clock));
      SeesExisting(user, rolesSince, roles, channel, clock, since)
  {
    var since := Answer(Grants(user, rolesSince, roles, channel, clock));
    forall at | HasAt(user, channel, at) && AtOrBefore(at, clock)
      ensures since.ok && AtOrBefore(since.at, clock) && NotAfter(since.at, at)
    {
      var g := OwnGrant(user, rolesSince, roles, channel, clock, at);
      ExistingCounts(user, rolesSince, roles, channel, clock, g);
    }
    forall k, held, at | 0 <= k < |roles| && GivesAt(user, rolesSince, roles[k], channel, held, at)
      && AtOrBefore(held, clock) && AtOrBefore(at, clock)
      ensures since.ok && AtOrBefore(since.at, clock) && NotAfterLater(since.at, held, at)
    {
      var g := RoleGrant(user, rolesSince, roles, k, channel, clock, held, at);
      ExistingCounts(user, rolesSince, roles, channel, clock, g);
    }
  }

  /** The user's own channels are among the grants. */
  lemma OwnGrant(user: Principal, rolesSince: TimedEntries, roles: seq<Principal>, channel: string,
                 clock: map<nat, nat>, at: VbSeq) returns (g: Grant)
    requires HasAt(user, channel, at)
    ensures g in Grants(user, rolesSince, roles, channel, clock) && g.at == at
    ensures AtOrBefore(at, clock) <==> g.existing
  {
    g := Grant(LessThanOrEqualsClock(at, clock), at, NoSeq);
    assert OwnGrants(user, channel, clock) == [g];
    RoleGrantsIn(user, rolesSince, roles, channel, clock);
    assert g == Grants(user, rolesSince, roles, channel, clock)[0];
  }

  /** So are those of the user's roles. */
  lemma RoleGrant(user: Principal, rolesSince: TimedEntries, roles: seq<Principal>, k: int, channel: string,
                  clock: map<nat, nat>, held: VbSeq, at: VbSeq) returns (g: Grant)
    requires 0 <= k < |roles| && GivesAt(user, rolesSince, roles[k], channel, held, at)
    ensures g in Grants(user, rolesSince, roles, channel, clock) && g.at in {held, at}
    ensures g.existing <==> AtOrBefore(held, clock) && AtOrBefore(at, clock)
  {
    g := CalculateRoleChannelGrant(held, at, clock);
    assert RoleGrants(user, rolesSince, roles[k], channel, clock) == [g];
    RoleGrantsIn(user, rolesSince, roles, channel, clock);
    assert roles[k] in roles;
  }

  lemma {:induction false} ExistingAtClock(user: Principal, rolesSince: TimedEntries, roles: seq<Principal>,
                                           channel: string, clock: map<nat, nat>)
    ensures forall g :: g in Grants(user, rolesSince, roles, channel, clock) && g.existing ==> AtOrBefore(g.at, clock)
  {
    if roles != [] {
      ExistingAtClock(user, rolesSince, roles[..|roles| - 1], channel, clock);
    }
  }

  lemma ExistingCounts(user: Principal, rolesSince: TimedEntries, roles: seq<Principal>, channel: string,
                       clock: map<nat, nat>, g: Grant)
    requires g in Grants(user, rolesSince, roles, channel, clock) && g.existing
    ensures var since := Answer(Grants(user, rolesSince, roles, channel, clock));
      since.ok && AtOrBefore(since.at, clock) && NotAfter(since.at, g.at)
  {
    var grants := Grants(user, rolesSince, roles, channel, clock);
    ExistingAreUsable(user, rolesSince, roles, channel, clock);
    ExistingAtClock(user, rolesSince, roles, channel, clock);
    var k :| 0 <= k < |grants| && grants[k] == g;
    assert Offers(grants, true, k);
    var m := LeastUsable(grants, true, k);
    ExistingWins(grants, m);
    var j :| Offers(grants, true, j) && grants[j].at == m;
    assert grants[j] in grants;
  }

  lemma AnswerComesFrom(user: Principal, rolesSince: TimedEntries, roles: seq<Principal>, channel: string,
                        clock: map<nat, nat>)
    requires Answer(Grants(user, rolesSince, roles, channel, clock)).ok
    ensures ComesFrom(user, rolesSince, roles, channel, clock, Answer(Grants(user, rolesSince, roles, channel, clock)))
  {
    var grants := Grants(user, rolesSince, roles, channel, clock);
    var since := Answer(grants);
    HeldOffered(grants, true);
    HeldOffered(grants, false);
    var g := if Held(grants, true).at.sequence != 0 then Held(grants, true) else Held(grants, false);
    assert g in grants && since.at == g.at && since.trigger == if g.existing then NoSeq else g.trigger;
    GrantSource(user, rolesSince, roles, channel, clock, g);
    if g in OwnGrants(user, channel, clock) {
      assert HasAt(user, channel, g.at) && g.trigger == NoSeq;
    } else {
      var a :| 0 <= a < |roles| && RoleGrants(user, rolesSince, roles[a], channel, clock) == [g];
      FromRole(user, rolesSince, roles, a, channel, clock, g, since);
    }
  }

  lemma FromRole(user: Principal, rolesSince: TimedEntries, roles: seq<Principal>, a: int, channel: string,
                 clock: map<nat, nat>, g: Grant, since: Since)
    requires 0 <= a < |roles| && RoleGrants(user, rolesSince, roles[a], channel, clock) == [g]
    requires since.at == g.at && since.at.sequence > 0 && since.trigger == if g.existing then NoSeq else g.trigger
    ensures ComesFrom(user, rolesSince, roles, channel, clock, since)
  {
    var role := roles[a];
    var at := CanSeeChannelSinceVbSeq(role, channel).value;
    var held := WithVbNo(rolesSince[role.name], user.docVbNo);
    assert g == CalculateRoleChannelGrant(held, at, clock);
    assert GivesAt(user, rolesSince, roles[a], channel, held, at) && IsFromRole(since, held, at, clock);
  }

  lemma {:induction false} AllCount(user: Principal, rolesSince: TimedEntries, roles: seq<Principal>, channel: string,
                                    clock: map<nat, nat>)
    requires NoZeroGrants(user, rolesSince, roles, channel)
    ensures AllUsable(Grants(user, rolesSince, roles, channel, clock))
  {
    var grants := Grants(user, rolesSince, roles, channel, clock);
    forall k | 0 <= k < |grants|
      ensures grants[k].at.sequence != 0
    {
      GrantSource(user, rolesSince, roles, channel, clock, grants[k]);
      if grants[k] in OwnGrants(user, channel, clock) {
        assert HasAt(user, channel, grants[k].at);
      } else {
        var a :| 0 <= a < |roles| && RoleGrants(user, rolesSince, roles[a], channel, clock) == [grants[k]];
        RoleGrantCounts(user, rolesSince, roles, a, channel, clock, grants[k]);
      }
    }
  }

  lemma RoleGrantCounts(user: Principal, rolesSince: TimedEntries, roles: seq<Principal>, a: int, channel: string,
                        clock: map<nat, nat>, g: Grant)
    requires 0 <= a < |roles| && RoleGrants(user, rolesSince, roles[a], channel, clock) == [g]
    requires NoZeroGrants(user, rolesSince, roles, channel)
    ensures g.at.sequence != 0
  {
    var at := CanSeeChannelSinceVbSeq(roles[a], channel).value;
    var held := WithVbNo(rolesSince[roles[a].name], user.docVbNo);
    assert GivesAt(user, rolesSince, roles[a], channel, held, at);
  }

  lemma NewCounts(user: Principal, rolesSince: TimedEntries, roles: seq<Principal>, channel: string,
                  clock: map<nat, nat>)
    requires NoZeroGrants(user, rolesSince, roles, channel)
    ensures SeesNew(user, rolesSince, roles, channel, clock, Answer(Grants(user, rolesSince, roles, channel, clock)))
  {
    var since := Answer(Grants(user, rolesSince, roles, channel, clock));
    forall at | HasAt(user, channel, at)
      ensures since.ok && (AtOrBefore(since.at, clock) || NotAfter(since.at, at))
    {
      var g := OwnGrant(user, rolesSince, roles, channel, clock, at);
      GrantCounts(user, rolesSince, roles, channel, clock, g);
    }
    forall k, held, at | 0 <= k < |roles|
      ensures RoleSeesNew(user, rolesSince, roles[k], channel, clock, since, held, at)
    {
      if GivesAt(user, rolesSince, roles[k], channel, held, at) {
        NewRoleCounts(user, rolesSince, roles, k, channel, clock, held, at);
      }
    }
  }

  lemma NewRoleCounts(user: Principal, rolesSince: TimedEntries, roles: seq<Principal>, k: int, channel: string,
                      clock: map<nat, nat>, held: VbSeq, at: VbSeq)
    requires NoZeroGrants(user, rolesSince, roles, channel)
    requires 0 <= k < |roles| && GivesAt(user, rolesSince, roles[k], channel, held, at)
    ensures var since := Answer(Grants(user, rolesSince, roles, channel, clock));
      since.ok && (AtOrBefore(since.at, clock) || NotAfterLater(since.at, held, at))
  {
    var g := RoleGrant(user, rolesSince, roles, k, channel, clock, held, at);
    GrantCounts(user, rolesSince, roles, channel, clock, g);
  }

  lemma GrantCounts(user: Principal, rolesSince: TimedEntries, roles: seq<Principal>, channel: string,
                    clock: map<nat, nat>, g: Grant)
    requires NoZeroGrants(user, rolesSince, roles, channel) && g in Grants(user, rolesSince, roles, channel, clock)
    ensures var since := Answer(Grants(user, rolesSince, roles, channel, clock));
      since.ok && (AtOrBefore(since.at, clock) || NotAfter(since.at, g.at))
  {
    var grants := Grants(user, rolesSince, roles, channel, clock);
    AllCount(user, rolesSince, roles, channel, clock);
    if j :| Offers(grants, true, j) {
      assert grants[j] in grants;
      ExistingCounts(user, rolesSince, roles, channel, clock, grants[j]);
    } else {
      var k :| 0 <= k < |grants| && grants[k] == g;
      assert !Offers(grants, true, k);
      var m := LeastUsable(grants, false, k);
      HeldIsLeast(grants, false, m);
      HeldOffered(grants, true);
    }
  }
}
