/** Whether the order of the roles shows in the answer to since when a user sees a channel, grants at sequence zero
    included (auth/user.go:450-496). */
module ClockGrantOrder {
  import opened TimedSets
  import opened VbSeqs
  import opened ClockGrants

  /** The grants of the roles, in the order of the roles. */
  function AllRoleGrants(user: Principal, rolesSince: TimedEntries, roles: seq<Principal>, channel: string,
                         clock: map<nat, nat>): seq<Grant>
  {
    if roles == [] then []
    else
      var n := |roles| - 1;
      AllRoleGrants(user, rolesSince, roles[..n], channel, clock) +
        RoleGrants(user, rolesSince, roles[n], channel, clock)
  }

  lemma {:induction false} OwnFirst(user: Principal, rolesSince: TimedEntries, roles: seq<Principal>, channel: string,
                                    clock: map<nat, nat>)
    ensures Grants(user, rolesSince, roles, channel, clock) ==
      OwnGrants(user, channel, clock) + AllRoleGrants(user, rolesSince, roles, channel, clock)
  {
    if roles != [] {
      OwnFirst(user, rolesSince, roles[..|roles| - 1], channel, clock);
    }
  }

  predicate UsableNew(g: Grant) {
    !g.existing && g.at.sequence != 0
  }

  predicate SameSince(a: Since, b: Since) {
    a.at == b.at && a.ok == b.ok
  }

  // ---- the condition

  ghost predicate HasExisting(grants: seq<Grant>) {
    exists k :: Offers(grants, true, k)
  }

  predicate NoneUsableNew(grants: seq<Grant>) {
    forall g :: g in grants ==> !UsableNew(g)
  }

  /** No role's grant is one at sequence zero that would empty the accumulator of the least grant. */
  ghost predicate NoneEmpties(own: seq<Grant>, fromRoles: seq<Grant>) {
    forall m, g :: IsLeast(m, own + fromRoles, false) && g in fromRoles ==> !Empties(g, false, m)
  }

  ghost predicate OrderFixed(own: seq<Grant>, fromRoles: seq<Grant>) {
    HasExisting(own + fromRoles) || NoneUsableNew(fromRoles) || NoneEmpties(own, fromRoles)
  }

  /** Whether the user sees the channel, and since when, is the same for every order of the roles exactly if the user
      saw it already, or no role gives it newly at a usable sequence, or no role gives it at sequence zero in the
      vbucket of the least grant or a lower one. */
  lemma SinceUnorderedIff(user: Principal, rolesSince: TimedEntries, roles: seq<Principal>, channel: string,
                          clock: map<nat, nat>)
    ensures (forall roles' :: Reordered(roles, roles') ==>
              SameSince(Answer(Grants(user, rolesSince, roles', channel, clock)),
                        Answer(Grants(user, rolesSince, roles, channel, clock))))
            <==> OrderFixed(OwnGrants(user, channel, clock), AllRoleGrants(user, rolesSince, roles, channel, clock))
  {
    var own := OwnGrants(user, channel, clock);
    var fromRoles := AllRoleGrants(user, rolesSince, roles, channel, clock);
    if OrderFixed(own, fromRoles) {
      forall roles' | Reordered(roles, roles')
        ensures SameSince(Answer(Grants(user, rolesSince, roles', channel, clock)),
                          Answer(Grants(user, rolesSince, roles, channel, clock)))
      {
        FixedStays(user, rolesSince, roles, roles', channel, clock);
      }
    } else {
      OrderShows(user, rolesSince, roles, channel, clock);
    }
  }

  // ---- fixed

  lemma FixedStays(user: Principal, rolesSince: TimedEntries, roles: seq<Principal>, roles': seq<Principal>,
                   channel: string, clock: map<nat, nat>)
    requires Reordered(roles, roles')
    requires OrderFixed(OwnGrants(user, channel, clock), AllRoleGrants(user, rolesSince, roles, channel, clock))
    ensures SameSince(Answer(Grants(user, rolesSince, roles', channel, clock)),
                      Answer(Grants(user, rolesSince, roles, channel, clock)))
  {
    SameMembers(roles, roles');
    RoleGrantMembers(user, rolesSince, roles, channel, clock);
    RoleGrantMembers(user, rolesSince, roles', channel, clock);
    OwnFirst(user, rolesSince, roles, channel, clock);
    OwnFirst(user, rolesSince, roles', channel, clock);
    ExistingAreUsable(user, rolesSince, roles, channel, clock);
    SameForSame(OwnGrants(user, channel, clock), AllRoleGrants(user, rolesSince, roles, channel, clock),
                AllRoleGrants(user, rolesSince, roles', channel, clock));
  }

  ghost predicate GivenByRole(user: Principal, rolesSince: TimedEntries, roles: seq<Principal>, channel: string,
                              clock: map<nat, nat>, g: Grant)
  {
    exists r :: r in roles && g in RoleGrants(user, rolesSince, r, channel, clock)
  }

  lemma {:induction false} RoleGrantMembers(user: Principal, rolesSince: TimedEntries, roles: seq<Principal>,
                                            channel: string, clock: map<nat, nat>)
    ensures forall g :: g in AllRoleGrants(user, rolesSince, roles, channel, clock) <==>
      GivenByRole(user, rolesSince, roles, channel, clock, g)
  {
    if roles != [] {
      var n := |roles| - 1;
      RoleGrantMembers(user, rolesSince, roles[..n], channel, clock);
      assert forall r :: r in roles <==> r in roles[..n] || r == roles[n];
    }
  }

  lemma SameForSame(own: seq<Grant>, a: seq<Grant>, b: seq<Grant>)
    requires |own| <= 1 && (forall g :: g in a <==> g in b)
    requires AllExistingUsable(own + a) && OrderFixed(own, a)
    ensures SameSince(Answer(own + b), Answer(own + a))
  {
    assert forall g :: g in own + a <==> g in own + b;
    if HasExisting(own + a) {
      SameExisting(own + a, own + b);
    } else {
      OffersAlike(own + b, own + a, true);
      if k :| 0 <= k < |own + a| && UsableNew((own + a)[k]) {
        var m := LeastUsable(own + a, false, k);
        LeastSame(own + a, own + b, false, m);
        if NoneEmpties(own, a) {
          NeverEmptied(own, a, m);
          NeverEmptied(own, b, m);
        } else {
          OnlyOwn(own, a, m);
          OnlyOwn(own, b, m);
        }
      } else {
        assert NoneUsableNew(own + a);
        NothingUsable(own + a);
        NothingUsable(own + b);
      }
    }
  }

  lemma {:induction false} LeastUsable(grants: seq<Grant>, existing: bool, k: int) returns (m: VbSeq)
    requires Offers(grants, existing, k) && grants[k].at.sequence != 0
    ensures IsLeast(m, grants, existing)
  {
    var n := |grants| - 1;
    m := grants[k].at;
    var i := 0;
    while i < |grants|
      invariant 0 <= i <= |grants| && m.sequence != 0
      invariant exists j :: Offers(grants, existing, j) && grants[j].at == m
      invariant forall j :: 0 <= j < i && Offers(grants, existing, j) && grants[j].at.sequence != 0 ==>
        !Before(grants[j].at, m)
    {
      if Offers(grants, existing, i) && grants[i].at.sequence != 0 && Before(grants[i].at, m) {
        m := grants[i].at;
      }
      i := i + 1;
    }
  }

  lemma LeastSame(grants: seq<Grant>, grants': seq<Grant>, existing: bool, m: VbSeq)
    requires IsLeast(m, grants, existing) && forall g :: g in grants <==> g in grants'
    ensures IsLeast(m, grants', existing)
  {
    var k :| Offers(grants, existing, k) && grants[k].at == m;
    assert grants[k] in grants';
    var k' :| 0 <= k' < |grants'| && grants'[k'] == grants[k];
    assert Offers(grants', existing, k');
    forall j | Offers(grants', existing, j) && grants'[j].at.sequence != 0
      ensures !Before(grants'[j].at, m)
    {
      assert grants'[j] in grants;
      var i :| 0 <= i < |grants| && grants[i] == grants'[j];
      assert Offers(grants, existing, i);
    }
  }

  lemma SameExisting(grants: seq<Grant>, grants': seq<Grant>)
    requires HasExisting(grants) && AllExistingUsable(grants) && forall g :: g in grants <==> g in grants'
    ensures Answer(grants') == Answer(grants)
  {
    var k :| Offers(grants, true, k);
    var m := LeastUsable(grants, true, k);
    LeastSame(grants, grants', true, m);
    forall j | Offers(grants', true, j)
      ensures grants'[j].at.sequence != 0
    {
      assert grants'[j] in grants;
      var i :| 0 <= i < |grants| && grants[i] == grants'[j];
      assert Offers(grants, true, i);
    }
    ExistingWins(grants, m);
    ExistingWins(grants', m);
  }

  /** Nothing that comes after the least grant empties its accumulator. */
  lemma NeverEmptied(own: seq<Grant>, fromRoles: seq<Grant>, m: VbSeq)
    requires |own| <= 1 && IsLeast(m, own + fromRoles, false) && !HasExisting(own + fromRoles)
    requires forall g :: g in fromRoles ==> !Empties(g, false, m)
    ensures Answer(own + fromRoles).at == m && Answer(own + fromRoles).ok
  {
    var grants := own + fromRoles;
    var k :| Offers(grants, false, k) && grants[k].at == m;
    forall j | k < j < |grants|
      ensures !Empties(grants[j], false, m)
    {
      assert grants[j] == fromRoles[j - |own|];
    }
    assert SurvivesFrom(m, grants, false, k);
    NewWinsIff(grants, m);
  }

  lemma NothingUsable(grants: seq<Grant>)
    requires !HasExisting(grants) && NoneUsableNew(grants)
    ensures Answer(grants) == Since(NoSeq, NoSeq, false)
  {
    forall k | 0 <= k < |grants|
      ensures grants[k].at.sequence == 0
    {
      assert grants[k] in grants && !Offers(grants, true, k);
    }
    NoGrantNoAccess(grants);
  }

  /** With no other usable grant than the user's own, that is the answer unless some role's grant empties it. */
  lemma OnlyOwn(own: seq<Grant>, fromRoles: seq<Grant>, m: VbSeq)
    requires |own| <= 1 && IsLeast(m, own + fromRoles, false) && !HasExisting(own + fromRoles)
    requires NoneUsableNew(fromRoles)
    ensures var since := Answer(own + fromRoles);
      if forall g :: g in fromRoles ==> !Empties(g, false, m) then since.at == m && since.ok
      else since.at == NoSeq && !since.ok
  {
    if forall g :: g in fromRoles ==> !Empties(g, false, m) {
      NeverEmptied(own, fromRoles, m);
    } else {
      var grants := own + fromRoles;
      var g :| g in fromRoles && Empties(g, false, m);
      var i :| 0 <= i < |fromRoles| && fromRoles[i] == g;
      OwnIsUsable(own, fromRoles, m);
      forall k
        ensures !SurvivesFrom(m, grants, false, k)
      {
        assert grants[|own| + i] == g;
      }
      HeldIff(m, grants, false);
      HeldOffered(grants, false);
      HeldOffered(grants, true);
    }
  }

  lemma OwnIsUsable(own: seq<Grant>, fromRoles: seq<Grant>, m: VbSeq)
    requires |own| <= 1 && IsLeast(m, own + fromRoles, false) && NoneUsableNew(fromRoles)
    ensures own != [] && own[0].at == m
    ensures forall k :: Offers(own + fromRoles, false, k) && (own + fromRoles)[k].at.sequence != 0 ==> k == 0
  {
    var grants := own + fromRoles;
    assert forall k :: |own| <= k < |grants| ==> grants[k] in fromRoles;
  }

  // ---- not fixed

  function ToBack(roles: seq<Principal>, a: nat): seq<Principal>
    requires a < |roles|
  {
    roles[..a] + roles[a + 1..] + [roles[a]]
  }

  lemma ToBackReorders(roles: seq<Principal>, a: nat)
    requires a < |roles|
    ensures Reordered(roles, ToBack(roles, a))
  {
    assert roles == roles[..a] + [roles[a]] + roles[a + 1..];
  }

  /** A role moved to the back has its grant looked at last. */
  lemma LookedAtLast(user: Principal, rolesSince: TimedEntries, roles: seq<Principal>, a: nat, channel: string,
                     clock: map<nat, nat>, g: Grant) returns (before: seq<Grant>)
    requires a < |roles| && RoleGrants(user, rolesSince, roles[a], channel, clock) == [g]
    ensures Grants(user, rolesSince, ToBack(roles, a), channel, clock) == before + [g]
  {
    var rest := roles[..a] + roles[a + 1..];
    assert ToBack(roles, a)[..|rest|] == rest;
    before := Grants(user, rolesSince, rest, channel, clock);
  }

  lemma EmptiedLast(before: seq<Grant>, z: Grant, m: VbSeq)
    requires !HasExisting(before + [z]) && IsLeast(m, before + [z], false) && Empties(z, false, m)
    ensures !Answer(before + [z]).ok
  {
    var grants := before + [z];
    assert grants[..|before|] == before;
    HeldOffered(before, false);
    HeldOffered(grants, true);
    assert forall k :: Offers(before, false, k) ==> Offers(grants, false, k) && grants[k] == before[k];
  }

  lemma UsableLast(before: seq<Grant>, u: Grant)
    requires UsableNew(u) && !HasExisting(before + [u])
    ensures Answer(before + [u]).ok
  {
    assert (before + [u])[..|before|] == before;
  }

  lemma {:induction false} RoleOf(user: Principal, rolesSince: TimedEntries, roles: seq<Principal>, channel: string,
                                  clock: map<nat, nat>, g: Grant) returns (a: nat)
    requires g in AllRoleGrants(user, rolesSince, roles, channel, clock)
    ensures a < |roles| && RoleGrants(user, rolesSince, roles[a], channel, clock) == [g]
  {
    var n := |roles| - 1;
    if g in AllRoleGrants(user, rolesSince, roles[..n], channel, clock) {
      a := RoleOf(user, rolesSince, roles[..n], channel, clock, g);
    } else {
      a := n;
    }
  }

  lemma OrderShows(user: Principal, rolesSince: TimedEntries, roles: seq<Principal>, channel: string,
                   clock: map<nat, nat>)
    requires !OrderFixed(OwnGrants(user, channel, clock), AllRoleGrants(user, rolesSince, roles, channel, clock))
    ensures exists roles' ::
      && Reordered(roles, roles')
      && !SameSince(Answer(Grants(user, rolesSince, roles', channel, clock)),
                    Answer(Grants(user, rolesSince, roles, channel, clock)))
  {
    var own, fromRoles := OwnGrants(user, channel, clock), AllRoleGrants(user, rolesSince, roles, channel, clock);
    var u :| u in fromRoles && UsableNew(u);
    var m, z :| IsLeast(m, own + fromRoles, false) && z in fromRoles && Empties(z, false, m);
    OwnFirst(user, rolesSince, roles, channel, clock);
    ShownByLast(user, rolesSince, roles, channel, clock, u, z, m);
  }

  /** With the emptying grant last the user does not see the channel, with the usable one last the user does. */
  lemma ShownByLast(user: Principal, rolesSince: TimedEntries, roles: seq<Principal>, channel: string,
                    clock: map<nat, nat>, u: Grant, z: Grant, m: VbSeq)
    requires u in AllRoleGrants(user, rolesSince, roles, channel, clock) && UsableNew(u)
    requires z in AllRoleGrants(user, rolesSince, roles, channel, clock) && Empties(z, false, m)
    requires IsLeast(m, Grants(user, rolesSince, roles, channel, clock), false)
    requires !HasExisting(Grants(user, rolesSince, roles, channel, clock))
    ensures exists roles' ::
      && Reordered(roles, roles')
      && !SameSince(Answer(Grants(user, rolesSince, roles', channel, clock)),
                    Answer(Grants(user, rolesSince, roles, channel, clock)))
  {
    var a := RoleOf(user, rolesSince, roles, channel, clock, z);
    var b := RoleOf(user, rolesSince, roles, channel, clock, u);
    SeenWith(user, rolesSince, roles, a, channel, clock, z, m);
    SeenWith(user, rolesSince, roles, b, channel, clock, u, m);
    ToBackReorders(roles, a);
    ToBackReorders(roles, b);
  }

  lemma SeenWith(user: Principal, rolesSince: TimedEntries, roles: seq<Principal>, a: nat, channel: string,
                 clock: map<nat, nat>, g: Grant, m: VbSeq)
    requires a < |roles| && RoleGrants(user, rolesSince, roles[a], channel, clock) == [g]
    requires IsLeast(m, Grants(user, rolesSince, roles, channel, clock), false)
    requires !HasExisting(Grants(user, rolesSince, roles, channel, clock))
    ensures Empties(g, false, m) ==> !Answer(Grants(user, rolesSince, ToBack(roles, a), channel, clock)).ok
    ensures UsableNew(g) ==> Answer(Grants(user, rolesSince, ToBack(roles, a), channel, clock)).ok
  {
    var grants := Grants(user, rolesSince, roles, channel, clock);
    var grants' := Grants(user, rolesSince, ToBack(roles, a), channel, clock);
    ToBackReorders(roles, a);
    GrantsReordered(user, rolesSince, roles, ToBack(roles, a), channel, clock);
    LeastSame(grants, grants', false, m);
    OffersAlike(grants', grants, true);
    var before := LookedAtLast(user, rolesSince, roles, a, channel, clock, g);
    if Empties(g, false, m) {
      EmptiedLast(before, g, m);
    } else if UsableNew(g) {
      UsableLast(before, g);
    }
  }
}
