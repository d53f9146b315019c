/**
 The in-memory profile store. Its abstract state is the primary tables and the order in which
 groups and memberships were last filed; the five indexes are pinned down by `Valid`.
 */
module ProfileStore {
  import opened Prelude
  import opened Contracts
  import opened Ordering
  import opened ProfileTables
  import opened OrderedIndex

  datatype Profiles = Profiles(rows: Tables, groupOrder: seq<Id>, membershipOrder: seq<Id>)

  function OrgOfGroups(groups: map<Id, Group>): map<Id, Id> {
    map id | id in groups :: groups[id].orgId
  }

  function UserOfMemberships(memberships: map<Id, Membership>): map<Id, Id> {
    map id | id in memberships :: memberships[id].userId
  }

  function OrgOfMemberships(memberships: map<Id, Membership>): map<Id, Id> {
    map id | id in memberships :: memberships[id].orgId
  }

  // ------------------------------------------------ the operations, without indexes

  function SavedUser(p: Profiles, u: User): Profiles {
    p.(rows := p.rows.(users := p.rows.users[u.id := u]))
  }

  function SavedOrg(p: Profiles, o: Org): Profiles {
    p.(rows := p.rows.(orgs := p.rows.orgs[o.id := o]))
  }

  // A group keeps its place as long as its organisation stays the same.
  function SavedGroup(p: Profiles, g: Group): Profiles {
    p.(rows := p.rows.(groups := p.rows.groups[g.id := g]),
       groupOrder := if g.id in p.rows.groups && p.rows.groups[g.id].orgId == g.orgId then p.groupOrder
                     else Dropping(p.groupOrder, g.id) + [g.id])
  }

  function Unlisted(m: Membership, groupId: Id): Membership {
    m.(groupIds := Dropping(m.groupIds, groupId))
  }

  // The memberships of the organisation list the group no more.
  function WithoutGroup(memberships: map<Id, Membership>, groupId: Id, orgId: Id): map<Id, Membership> {
    map id | id in memberships ::
      if memberships[id].orgId == orgId then Unlisted(memberships[id], groupId) else memberships[id]
  }

  function DeletedGroup(p: Profiles, id: Id): Profiles {
    if id !in p.rows.groups then p
    else
      p.(rows := p.rows.(groups := p.rows.groups - {id},
                         memberships := WithoutGroup(p.rows.memberships, id, p.rows.groups[id].orgId)),
         groupOrder := Dropping(p.groupOrder, id))
  }

  // A membership moves to the end each time it is saved.
  function SavedMembership(p: Profiles, m: Membership): Profiles {
    p.(rows := p.rows.(memberships := p.rows.memberships[m.id := m]),
       membershipOrder := Dropping(p.membershipOrder, m.id) + [m.id])
  }

  function RemovedMembership(p: Profiles, id: Id): Profiles {
    p.(rows := p.rows.(memberships := p.rows.memberships - {id}), membershipOrder := Dropping(p.membershipOrder, id))
  }

  // The first of the ids that is a membership of the user, in the organisation if one is given.
  function FirstLinked(memberships: map<Id, Membership>, ids: seq<Id>, userId: Id,
                       orgId: Option<Id>): Option<Membership>
  {
    if ids == [] then None
    else if Fits(memberships, ids[0], userId, orgId) then Some(memberships[ids[0]])
    else FirstLinked(memberships, ids[1..], userId, orgId)
  }

  predicate Fits(memberships: map<Id, Membership>, id: Id, userId: Id, orgId: Option<Id>) {
    id in memberships && memberships[id].userId == userId && (orgId.Some? ==> memberships[id].orgId == orgId.value)
  }

  function MembershipFor(p: Profiles, q: IdentityRequest): Result<Option<Membership>, IdentityError> {
    if q.membershipId.Some? then
      var id, memberships := q.membershipId.value, p.rows.memberships;
      if id !in memberships then Err(MembershipNotFound(id))
      else if memberships[id].userId != q.userId then Err(MembershipOfOtherUser(id))
      else if q.orgId.Some? && memberships[id].orgId != q.orgId.value then Err(MembershipOfOtherOrg(id))
      else Ok(Some(memberships[id]))
    else Ok(FirstLinked(p.rows.memberships, p.membershipOrder, q.userId, q.orgId))
  }

  // The effective identity, without indexes. There are no entitlements here.
  function Identity(t: Tables, key: IdentityKey): EffectiveIdentity
    requires Resolvable(t, key)
  {
    EffectiveIdentity(
      key.userId, OrgIdOf(t, key), FirstOccurrences(GroupIds(GroupsOf(t, key))),
      MergeLabels(Given(LabelOperands(t, key))),
      if key.membershipId.Some? then [t.memberships[key.membershipId.value].role] else [], [], [])
  }

  lemma {:induction false} FirstLinkedIsOne(memberships: map<Id, Membership>, ids: seq<Id>, userId: Id,
                                            orgId: Option<Id>)
    ensures var m := FirstLinked(memberships, ids, userId, orgId);
            m.Some? ==> exists id :: id in ids && Fits(memberships, id, userId, orgId) && m.value == memberships[id]
  {
    if ids != [] && !Fits(memberships, ids[0], userId, orgId) {
      FirstLinkedIsOne(memberships, ids[1..], userId, orgId);
    }
  }

  function IdentityFor(p: Profiles, q: IdentityRequest): IdentityAnswer {
    if q.userId !in p.rows.users then Err(UserNotFound(q.userId))
    else
      match MembershipFor(p, q)
      case Err(e) => Err(e)
      case Ok(m) =>
        FirstLinkedIsOne(p.rows.memberships, p.membershipOrder, q.userId, q.orgId);
        if q.orgId.Some? && q.orgId.value !in p.rows.orgs then Err(OrgNotFound(q.orgId.value))
        else Ok(Identity(p.rows, KeyFor(p.rows.users[q.userId], m, q)))
  }

  // ------------------------------------------------------------------------ the store

  // Every indexed slug is that of the organisation it leads to.
  ghost predicate SlugsSound(orgs: map<Id, Org>, slugs: map<string, Id>) {
    forall slug :: slug in slugs ==> slugs[slug] in orgs && orgs[slugs[slug]].slug == slug
  }

  // And every organisation is found by its slug.
  ghost predicate SlugsExact(orgs: map<Id, Org>, slugs: map<string, Id>) {
    SlugsSound(orgs, slugs) && forall id :: id in orgs ==> orgs[id].slug in slugs && slugs[orgs[id].slug] == id
  }

  function SavedSlug(orgs: map<Id, Org>, slugs: map<string, Id>, o: Org): map<string, Id> {
    var kept := if o.id in orgs && orgs[o.id].slug != o.slug then slugs - {orgs[o.id].slug} else slugs;
    kept[o.slug := o.id]
  }

  // The slug index stays exact exactly when no other organisation holds the slug being saved.
  lemma SlugsStayExact(orgs: map<Id, Org>, slugs: map<string, Id>, o: Org)
    requires SlugsExact(orgs, slugs)
    ensures SlugsExact(orgs[o.id := o], SavedSlug(orgs, slugs, o)) <==>
            forall id :: id in orgs && orgs[id].slug == o.slug ==> id == o.id
  {
    var after, index := orgs[o.id := o], SavedSlug(orgs, slugs, o);
    forall id | id in orgs && orgs[id].slug == o.slug && id != o.id
      ensures !SlugsExact(after, index)
    {
      assert after[id].slug == o.slug && index[o.slug] == o.id;
    }
  }

  lemma GroupFiled(index: Index<Id, Id>, order: seq<Id>, groups: map<Id, Group>, g: Group)
    requires Exact(index, order, OrgOfGroups(groups))
    ensures if g.id in groups && groups[g.id].orgId == g.orgId
            then Exact(Added(index, g.orgId, g.id), order, OrgOfGroups(groups[g.id := g]))
            else Exact(Refiled(index, Get(OrgOfGroups(groups), g.id), g.orgId, g.id), Dropping(order, g.id) + [g.id],
                       OrgOfGroups(groups[g.id := g]))
  {
    var owner := OrgOfGroups(groups);
    assert OrgOfGroups(groups[g.id := g]) == owner[g.id := g.orgId];
    if g.id in groups && groups[g.id].orgId == g.orgId {
      BucketRows(index, order, owner, g.orgId);
      assert g.id in Bucket(index, g.orgId);
      assert owner[g.id := g.orgId] == owner;
    } else {
      RefiledExact(index, order, owner, g.orgId, g.id);
    }
  }

  ghost predicate Filed(byUser: Index<Id, Id>, byOrg: Index<Id, Id>, order: seq<Id>, memberships: map<Id, Membership>) {
    && Exact(byUser, order, UserOfMemberships(memberships))
    && Exact(byOrg, order, OrgOfMemberships(memberships))
  }

  lemma OwnersAfter(memberships: map<Id, Membership>, m: Membership)
    ensures UserOfMemberships(memberships[m.id := m]) == UserOfMemberships(memberships)[m.id := m.userId]
    ensures OrgOfMemberships(memberships[m.id := m]) == OrgOfMemberships(memberships)[m.id := m.orgId]
  {
  }

  lemma MembershipFiled(byUser: Index<Id, Id>, byOrg: Index<Id, Id>, order: seq<Id>, memberships: map<Id, Membership>,
                        m: Membership)
    requires Filed(byUser, byOrg, order, memberships)
    ensures Filed(Refiled(byUser, Get(UserOfMemberships(memberships), m.id), m.userId, m.id),
                  Refiled(byOrg, Get(OrgOfMemberships(memberships), m.id), m.orgId, m.id),
                  Dropping(order, m.id) + [m.id], memberships[m.id := m])
  {
    OwnersAfter(memberships, m);
    RefiledExact(byUser, order, UserOfMemberships(memberships), m.userId, m.id);
    RefiledExact(byOrg, order, OrgOfMemberships(memberships), m.orgId, m.id);
  }

  lemma MembershipUnfiled(byUser: Index<Id, Id>, byOrg: Index<Id, Id>, order: seq<Id>, memberships: map<Id, Membership>,
                          id: Id)
    requires Filed(byUser, byOrg, order, memberships)
    ensures id !in memberships ==> Dropping(order, id) == order
    ensures id in memberships ==>
              Filed(Removed(byUser, memberships[id].userId, id), Removed(byOrg, memberships[id].orgId, id),
                    Dropping(order, id), memberships - {id})
  {
    if id in memberships {
      RemovedExact(byUser, order, UserOfMemberships(memberships), memberships[id].userId, id);
      RemovedExact(byOrg, order, OrgOfMemberships(memberships), memberships[id].orgId, id);
      assert UserOfMemberships(memberships - {id}) == UserOfMemberships(memberships) - {id};
      assert OrgOfMemberships(memberships - {id}) == OrgOfMemberships(memberships) - {id};
    } else {
      DroppingAbsent(order, id);
    }
  }

  lemma WithoutGroupFiled(byUser: Index<Id, Id>, byOrg: Index<Id, Id>, order: seq<Id>, memberships: map<Id, Membership>,
                          groupId: Id, orgId: Id)
    requires Filed(byUser, byOrg, order, memberships)
    ensures Filed(byUser, byOrg, order, WithoutGroup(memberships, groupId, orgId))
  {
    var after := WithoutGroup(memberships, groupId, orgId);
    assert UserOfMemberships(after) == UserOfMemberships(memberships);
    assert OrgOfMemberships(after) == OrgOfMemberships(memberships);
  }

  lemma AllUnlisted(before: map<Id, Membership>, after: map<Id, Membership>, ids: seq<Id>, groupId: Id, orgId: Id)
    requires forall id :: id in ids <==> id in before && before[id].orgId == orgId
    requires after.Keys == before.Keys
    requires forall id :: id in after ==> after[id] == if id in ids then Unlisted(before[id], groupId) else before[id]
    ensures after == WithoutGroup(before, groupId, orgId)
  {
  }

  class InMemoryProfileStore {
    var users: map<Id, User>
    var orgs: map<Id, Org>
    var orgSlugIndex: map<string, Id>
    var groups: map<Id, Group>
    var groupsByOrg: Index<Id, Id>
    var memberships: map<Id, Membership>
    var membershipsByUser: Index<Id, Id>
    var membershipsByOrg: Index<Id, Id>
    ghost var groupOrder: seq<Id>
    ghost var membershipOrder: seq<Id>

    ghost predicate Valid()
      reads this
    {
      && WellKeyed(Rows(users, orgs, groups, memberships, map[]))
      && SlugsSound(orgs, orgSlugIndex)
      && Exact(groupsByOrg, groupOrder, OrgOfGroups(groups))
      && Filed(membershipsByUser, membershipsByOrg, membershipOrder, memberships)
    }

    ghost function Contents(): Profiles
      requires Valid()
      reads this
    {
      Profiles(Rows(users, orgs, groups, memberships, map[]), groupOrder, membershipOrder)
    }

    constructor ()
      ensures Valid()
      ensures Contents() == Profiles(Rows(map[], map[], map[], map[], map[]), [], [])
      ensures SlugsExact(orgs, orgSlugIndex)
    {
      users, orgs, orgSlugIndex, groups, groupsByOrg := map[], map[], map[], map[], map[];
      memberships, membershipsByUser, membershipsByOrg := map[], map[], map[];
      groupOrder, membershipOrder := [], [];
    }

    method UpsertUserProfile(profile: User)
      requires Valid()
      modifies this
      ensures Valid() && Contents() == SavedUser(old(Contents()), profile)
      ensures orgSlugIndex == old(orgSlugIndex)
    {
      users := users[profile.id := profile];
    }

    method UpsertOrgProfile(profile: Org)
      requires Valid()
      modifies this
      ensures Valid() && Contents() == SavedOrg(old(Contents()), profile)
      ensures orgSlugIndex == SavedSlug(old(orgs), old(orgSlugIndex), profile)
    {
      if profile.id in orgs && orgs[profile.id].slug != profile.slug {
        orgSlugIndex := orgSlugIndex - {orgs[profile.id].slug};
      }
      orgs := orgs[profile.id := profile];
      orgSlugIndex := orgSlugIndex[profile.slug := profile.id];
    }

    method GetOrgProfileBySlug(slug: string) returns (r: Option<Org>)
      requires Valid()
      ensures r.Some? ==> r.value.slug == slug && Get(orgs, r.value.id) == r
      ensures SlugsExact(orgs, orgSlugIndex) ==> (r.None? <==> forall id :: id in orgs ==> orgs[id].slug != slug)
    {
      if slug !in orgSlugIndex {
        return None;
      }
      return Get(orgs, orgSlugIndex[slug]);
    }

    method UpsertGroup(group: Group)
      requires Valid()
      modifies this
      ensures Valid() && Contents() == SavedGroup(old(Contents()), group)
      ensures orgSlugIndex == old(orgSlugIndex)
    {
      SaveGroup(group);
    }

    method SaveGroup(group: Group)
      requires Exact(groupsByOrg, groupOrder, OrgOfGroups(groups))
      modifies this`groups, this`groupsByOrg, this`groupOrder
      ensures Exact(groupsByOrg, groupOrder, OrgOfGroups(groups))
      ensures groups == old(groups)[group.id := group]
      ensures groupOrder == if group.id in old(groups) && old(groups)[group.id].orgId == group.orgId
                            then old(groupOrder)
                            else Dropping(old(groupOrder), group.id) + [group.id]
    {
      GroupFiled(groupsByOrg, groupOrder, groups, group);
      groupOrder := if group.id in groups && groups[group.id].orgId == group.orgId then groupOrder
                    else Dropping(groupOrder, group.id) + [group.id];
      if group.id in groups && groups[group.id].orgId != group.orgId {
        groupsByOrg := Removed(groupsByOrg, groups[group.id].orgId, group.id);
      }
      groups := groups[group.id := group];
      groupsByOrg := Added(groupsByOrg, group.orgId, group.id);
    }

    method DeleteGroup(groupId: Id)
      requires Valid()
      modifies this
      ensures Valid() && Contents() == DeletedGroup(old(Contents()), groupId)
      ensures orgSlugIndex == old(orgSlugIndex)
    {
      if groupId !in groups {
        return;
      }
      var orgId := groups[groupId].orgId;
      DropGroup(groupId, orgId);
      RemoveGroupFromMemberships(groupId, orgId);
    }

    method DropGroup(groupId: Id, orgId: Id)
      requires Exact(groupsByOrg, groupOrder, OrgOfGroups(groups))
      requires groupId in groups && groups[groupId].orgId == orgId
      modifies this`groups, this`groupsByOrg, this`groupOrder
      ensures Exact(groupsByOrg, groupOrder, OrgOfGroups(groups))
      ensures groups == old(groups) - {groupId} && groupOrder == Dropping(old(groupOrder), groupId)
    {
      RemovedExact(groupsByOrg, groupOrder, OrgOfGroups(groups), orgId, groupId);
      assert OrgOfGroups(groups - {groupId}) == OrgOfGroups(groups) - {groupId};
      groups := groups - {groupId};
      groupsByOrg := Removed(groupsByOrg, orgId, groupId);
      groupOrder := Dropping(groupOrder, groupId);
    }

    method RemoveGroupFromMemberships(groupId: Id, orgId: Id)
      requires Filed(membershipsByUser, membershipsByOrg, membershipOrder, memberships)
      modifies this`memberships
      ensures Filed(membershipsByUser, membershipsByOrg, membershipOrder, memberships)
      ensures memberships == WithoutGroup(old(memberships), groupId, orgId)
    {
      BucketRows(membershipsByOrg, membershipOrder, OrgOfMemberships(memberships), orgId);
      WithoutGroupFiled(membershipsByUser, membershipsByOrg, membershipOrder, memberships, groupId, orgId);
      var ids := Bucket(membershipsByOrg, orgId);
      UnlistGroup(ids, groupId);
      AllUnlisted(old(memberships), memberships, ids, groupId, orgId);
    }

    method UnlistGroup(ids: seq<Id>, groupId: Id)
      requires forall id :: id in ids ==> id in memberships
      modifies this`memberships
      ensures memberships.Keys == old(memberships).Keys
      ensures forall id :: id in memberships ==>
                memberships[id] == if id in ids then Unlisted(old(memberships)[id], groupId) else old(memberships)[id]
    {
      for i := 0 to |ids|
        invariant memberships.Keys == old(memberships).Keys
        invariant forall id :: id in memberships ==>
                    memberships[id] == if id in ids[..i] then Unlisted(old(memberships)[id], groupId)
                                       else old(memberships)[id]
      {
        assert ids[..i + 1] == ids[..i] + [ids[i]];
        var membership := memberships[ids[i]];
        UnlistedTwice(old(memberships)[ids[i]], groupId);
        if groupId in membership.groupIds {
          memberships := memberships[ids[i] := Unlisted(membership, groupId)];
        }
      }
      assert ids[..|ids|] == ids;
    }

    method ListGroups(orgId: Id) returns (r: seq<Group>)
      requires Valid()
      ensures r == Rowed(groups, Under(groupOrder, OrgOfGroups(groups), orgId))
      ensures forall g :: g in r <==> g.orgId == orgId && Get(groups, g.id) == Some(g)
    {
      BucketRows(groupsByOrg, groupOrder, OrgOfGroups(groups), orgId);
      r := Rowed(groups, Bucket(groupsByOrg, orgId));
      forall g: Group {
        RowedMeaning(groups, Bucket(groupsByOrg, orgId), g);
      }
    }

    method ListMembershipsByUser(userId: Id) returns (r: seq<Membership>)
      requires Valid()
      ensures r == Rowed(memberships, Under(membershipOrder, UserOfMemberships(memberships), userId))
      ensures forall m :: m in r <==> m.userId == userId && Get(memberships, m.id) == Some(m)
    {
      BucketRows(membershipsByUser, membershipOrder, UserOfMemberships(memberships), userId);
      r := Rowed(memberships, Bucket(membershipsByUser, userId));
      forall m: Membership {
        RowedMeaning(memberships, Bucket(membershipsByUser, userId), m);
      }
    }

    method ListMembershipsByOrg(orgId: Id) returns (r: seq<Membership>)
      requires Valid()
      ensures r == Rowed(memberships, Under(membershipOrder, OrgOfMemberships(memberships), orgId))
      ensures forall m :: m in r <==> m.orgId == orgId && Get(memberships, m.id) == Some(m)
    {
      BucketRows(membershipsByOrg, membershipOrder, OrgOfMemberships(memberships), orgId);
      r := Rowed(memberships, Bucket(membershipsByOrg, orgId));
      forall m: Membership {
        RowedMeaning(memberships, Bucket(membershipsByOrg, orgId), m);
      }
    }

    method UpsertMembership(membership: Membership)
      requires Valid()
      modifies this
      ensures Valid() && Contents() == SavedMembership(old(Contents()), membership)
      ensures orgSlugIndex == old(orgSlugIndex)
    {
      SaveMembership(membership);
    }

    method SaveMembership(membership: Membership)
      requires Filed(membershipsByUser, membershipsByOrg, membershipOrder, memberships)
      modifies this`memberships, this`membershipsByUser, this`membershipsByOrg, this`membershipOrder
      ensures Filed(membershipsByUser, membershipsByOrg, membershipOrder, memberships)
      ensures memberships == old(memberships)[membership.id := membership]
      ensures membershipOrder == Dropping(old(membershipOrder), membership.id) + [membership.id]
    {
      var id := membership.id;
      MembershipFiled(membershipsByUser, membershipsByOrg, membershipOrder, memberships, membership);
      if id in memberships {
        membershipsByUser := Removed(membershipsByUser, memberships[id].userId, id);
        membershipsByOrg := Removed(membershipsByOrg, memberships[id].orgId, id);
      }
      memberships := memberships[id := membership];
      membershipOrder := Dropping(membershipOrder, id) + [id];
      membershipsByUser := Added(membershipsByUser, membership.userId, id);
      membershipsByOrg := Added(membershipsByOrg, membership.orgId, id);
    }

    method RemoveMembership(id: Id)
      requires Valid()
      modifies this
      ensures Valid() && Contents() == RemovedMembership(old(Contents()), id)
      ensures orgSlugIndex == old(orgSlugIndex)
    {
      MembershipUnfiled(membershipsByUser, membershipsByOrg, membershipOrder, memberships, id);
      if id !in memberships {
        assert memberships - {id} == memberships;
        return;
      }
      membershipsByUser := Removed(membershipsByUser, memberships[id].userId, id);
      membershipsByOrg := Removed(membershipsByOrg, memberships[id].orgId, id);
      memberships := memberships - {id};
      membershipOrder := Dropping(membershipOrder, id);
    }

    method ResolveMembership(q: IdentityRequest) returns (r: Result<Option<Membership>, IdentityError>)
      requires Valid()
      ensures r == MembershipFor(Contents(), q)
    {
      if q.membershipId.Some? {
        var id := q.membershipId.value;
        if id !in memberships {
          return Err(MembershipNotFound(id));
        }
        if memberships[id].userId != q.userId {
          return Err(MembershipOfOtherUser(id));
        }
        if q.orgId.Some? && memberships[id].orgId != q.orgId.value {
          return Err(MembershipOfOtherOrg(id));
        }
        return Ok(Some(memberships[id]));
      }
      BucketRows(membershipsByUser, membershipOrder, UserOfMemberships(memberships), q.userId);
      FirstOfBucket(memberships, membershipOrder, q.userId, q.orgId);
      var first := FirstInOrg(Bucket(membershipsByUser, q.userId), q.userId, q.orgId);
      return Ok(first);
    }

    method FirstInOrg(ids: seq<Id>, userId: Id, orgId: Option<Id>) returns (r: Option<Membership>)
      requires forall id :: id in ids ==> id in memberships && memberships[id].userId == userId
      ensures r == FirstLinked(memberships, ids, userId, orgId)
    {
      if orgId.None? {
        return if ids == [] then None else Some(memberships[ids[0]]);
      }
      for i := 0 to |ids|
        invariant FirstLinked(memberships, ids, userId, orgId) == FirstLinked(memberships, ids[i..], userId, orgId)
      {
        assert ids[i..][0] == ids[i] && ids[i..][1..] == ids[i + 1..];
        if memberships[ids[i]].orgId == orgId.value {
          return Some(memberships[ids[i]]);
        }
      }
      return None;
    }

    method ComputeEffectiveIdentity(q: IdentityRequest) returns (r: IdentityAnswer)
      requires Valid()
      ensures r == IdentityFor(Contents(), q)
    {
      if q.userId !in users {
        return Err(UserNotFound(q.userId));
      }
      var user := users[q.userId];
      var resolved := ResolveMembership(q);
      if resolved.Err? {
        return Err(resolved.error);
      }
      var membership := resolved.value;
      FirstLinkedIsOne(memberships, membershipOrder, q.userId, q.orgId);
      var membershipOrg := if membership.Some? then Some(membership.value.orgId) else None;
      var orgId := q.orgId.OrElse(membershipOrg.OrElse(user.primaryOrgId));
      var org := if orgId.Some? then Get(orgs, orgId.value) else None;
      if q.orgId.Some? && org.None? {
        return Err(OrgNotFound(q.orgId.value));
      }
      var identity := Assemble(KeyFor(user, membership, q), user, org, membership);
      return Ok(identity);
    }

    method Assemble(key: IdentityKey, user: User, org: Option<Org>, membership: Option<Membership>)
      returns (identity: EffectiveIdentity)
      requires Valid() && Resolvable(Contents().rows, key) && user == users[key.userId]
      requires org == OrgOf(Contents().rows, key) && membership == MembershipOf(Contents().rows, key)
      ensures identity == Identity(Contents().rows, key)
    {
      var found: seq<Group> := [];
      if key.includeGroups && membership.Some? {
        found := FoundGroups(membership.value.groupIds);
      }
      assert found == GroupsOf(Contents().rows, key);
      var labels := MergeLabelSets(
        [Some(user.labels), if org.Some? then Some(org.value.labels) else None,
         if membership.Some? then Some(membership.value.labelsDelta) else None]
        + GroupLabels(found));
      var groupIds := DedupeStrings(GroupIds(found));
      identity := EffectiveIdentity(user.id, if org.Some? then Some(org.value.id) else None, groupIds, labels,
                                    if membership.Some? then [membership.value.role] else [], [], []);
    }

    // The listed groups that are stored, in order.
    method FoundGroups(ids: seq<Id>) returns (found: seq<Group>)
      requires Valid()
      ensures found == GroupsByIds(Contents().rows, ids)
    {
      found := [];
      for i := 0 to |ids|
        invariant found == GroupsByIds(Contents().rows, ids[..i])
      {
        assert Front(ids[..i + 1]) == ids[..i];
        if ids[i] in groups {
          found := found + [groups[ids[i]]];
        }
      }
      assert ids[..|ids|] == ids;
    }
  }

  // Leaving out what is not there changes nothing, so the test for it may be skipped.
  lemma UnlistedTwice(m: Membership, groupId: Id)
    ensures groupId !in m.groupIds ==> Unlisted(m, groupId) == m
    ensures groupId !in Unlisted(m, groupId).groupIds && Unlisted(Unlisted(m, groupId), groupId) == Unlisted(m, groupId)
  {
    DroppingElements(m.groupIds, groupId);
    DroppingAbsent(Dropping(m.groupIds, groupId), groupId);
    if groupId !in m.groupIds {
      DroppingAbsent(m.groupIds, groupId);
    }
  }

  // Looking only at the memberships of the user finds the same one.
  lemma {:induction false} FirstOfBucket(memberships: map<Id, Membership>, order: seq<Id>, userId: Id,
                                         orgId: Option<Id>)
    ensures var ids := Under(order, UserOfMemberships(memberships), userId);
            FirstLinked(memberships, ids, userId, orgId) == FirstLinked(memberships, order, userId, orgId)
  {
    if order != [] {
      FirstOfBucket(memberships, order[1..], userId, orgId);
      var rest := Under(order[1..], UserOfMemberships(memberships), userId);
      assert ([order[0]] + rest)[1..] == rest;
      assert [] + rest == rest;
    }
  }

  // ---------------------------------------------------------------------- properties

  // What each operation does to each row, and to no other table.
  lemma SavedUserMeaning(p: Profiles, u: User, k: Id)
    ensures var after := SavedUser(p, u);
            && Get(after.rows.users, k) == (if k == u.id then Some(u) else Get(p.rows.users, k))
            && after == p.(rows := p.rows.(users := after.rows.users))
  {
  }

  lemma SavedOrgMeaning(p: Profiles, o: Org, k: Id)
    ensures var after := SavedOrg(p, o);
            && Get(after.rows.orgs, k) == (if k == o.id then Some(o) else Get(p.rows.orgs, k))
            && after == p.(rows := p.rows.(orgs := after.rows.orgs))
  {
  }

  lemma SavedGroupMeaning(p: Profiles, g: Group, k: Id)
    ensures var after := SavedGroup(p, g);
            && Get(after.rows.groups, k) == (if k == g.id then Some(g) else Get(p.rows.groups, k))
            && after == p.(rows := p.rows.(groups := after.rows.groups), groupOrder := after.groupOrder)
  {
  }

  lemma SavedMembershipMeaning(p: Profiles, m: Membership, k: Id)
    ensures var after := SavedMembership(p, m);
            && Get(after.rows.memberships, k) == (if k == m.id then Some(m) else Get(p.rows.memberships, k))
            && after == p.(rows := p.rows.(memberships := after.rows.memberships),
                           membershipOrder := after.membershipOrder)
  {
  }

  lemma RemovalsMeaning(p: Profiles, id: Id, k: Id)
    ensures Get(RemovedMembership(p, id).rows.memberships, k) == if k == id then None else Get(p.rows.memberships, k)
    ensures var after := RemovedMembership(p, id);
            after == p.(rows := p.rows.(memberships := after.rows.memberships),
                        membershipOrder := after.membershipOrder)
    ensures Get(DeletedGroup(p, id).rows.groups, k) == if k == id then None else Get(p.rows.groups, k)
    ensures var after := DeletedGroup(p, id);
            after == p.(rows := p.rows.(groups := after.rows.groups, memberships := after.rows.memberships),
                        groupOrder := after.groupOrder)
  {
  }

  // Where they leave the orders: a saved membership is last; so is a group that is new or has moved.
  lemma OrdersMeaning(p: Profiles, g: Group, m: Membership, id: Id)
    requires Distinct(p.groupOrder) && Distinct(p.membershipOrder)
    ensures Last(SavedMembership(p, m).membershipOrder) == m.id
    ensures forall k :: k in Front(SavedMembership(p, m).membershipOrder) <==> k in p.membershipOrder && k != m.id
    ensures forall k :: k in RemovedMembership(p, id).membershipOrder <==> k in p.membershipOrder && k != id
    ensures if g.id in p.rows.groups && p.rows.groups[g.id].orgId == g.orgId
            then SavedGroup(p, g).groupOrder == p.groupOrder
            else Last(SavedGroup(p, g).groupOrder) == g.id
                 && forall k :: k in Front(SavedGroup(p, g).groupOrder) <==> k in p.groupOrder && k != g.id
  {
    DroppingMeaning(p.membershipOrder, m.id);
    DroppingMeaning(p.membershipOrder, id);
    DroppingMeaning(p.groupOrder, g.id);
  }

  // A deleted group is listed by no membership of its organisation, and other lists are as before.
  lemma DeletedGroupUnlisted(p: Profiles, groupId: Id, id: Id)
    requires groupId in p.rows.groups && id in p.rows.memberships
    ensures var m := DeletedGroup(p, groupId).rows.memberships[id];
            && (m.orgId == p.rows.groups[groupId].orgId ==> groupId !in m.groupIds)
            && (forall g :: g != groupId ==> (g in m.groupIds <==> g in p.rows.memberships[id].groupIds))
            && (m.orgId != p.rows.groups[groupId].orgId ==> m == p.rows.memberships[id])
  {
    DroppingElements(p.rows.memberships[id].groupIds, groupId);
  }

  // It is listed nowhere exactly when only memberships of its organisation listed it.
  lemma DeletedGroupGone(p: Profiles, groupId: Id)
    requires groupId in p.rows.groups
    ensures (forall id :: id in p.rows.memberships ==>
               groupId !in DeletedGroup(p, groupId).rows.memberships[id].groupIds) <==>
            (forall id :: id in p.rows.memberships && groupId in p.rows.memberships[id].groupIds ==>
               p.rows.memberships[id].orgId == p.rows.groups[groupId].orgId)
  {
    var after := DeletedGroup(p, groupId).rows.memberships;
    forall id | id in p.rows.memberships
      ensures groupId in after[id].groupIds <==>
              groupId in p.rows.memberships[id].groupIds && p.rows.memberships[id].orgId != p.rows.groups[groupId].orgId
    {
      DeletedGroupUnlisted(p, groupId, id);
    }
  }

  lemma LabelsAreMerged(t: Tables, key: IdentityKey)
    requires Resolvable(t, key)
    ensures Identity(t, key).labels == MergeLabels(Given(LabelOperands(t, key)))
  {
  }

  // Each label of an identity is that of the last one of user, organisation, membership and groups
  // that has it, and no other label is there.
  lemma LastOneWins(t: Tables, key: IdentityKey, name: string)
    requires Resolvable(t, key)
    ensures var sets := Given(LabelOperands(t, key));
            && (name in Identity(t, key).labels <==> exists i: nat :: LastMention(sets, name, i))
            && (forall i: nat :: LastMention(sets, name, i) ==>
                  name in Identity(t, key).labels && Identity(t, key).labels[name] == sets[i][name])
  {
    var sets := Given(LabelOperands(t, key));
    LastMentionWins(sets, name);
    LabelsAreMerged(t, key);
    if name in MergeLabels(sets) {
      var i: nat :| LastMention(sets, name, i);
    }
  }

  // The memberships were last saved in the order of their creation.
  ghost predicate SavedInOrder(p: Profiles) {
    && (forall id :: id in p.membershipOrder <==> id in p.rows.memberships)
    && forall i, j :: 0 <= i < j < |p.membershipOrder| ==>
         MembershipLess(p.rows.memberships[p.membershipOrder[i]], p.rows.memberships[p.membershipOrder[j]])
  }

  lemma {:induction false} FirstIsEarliest(memberships: map<Id, Membership>, ids: seq<Id>, userId: Id,
                                           orgId: Option<Id>)
    requires forall i, j :: 0 <= i < j < |ids| && ids[i] in memberships && ids[j] in memberships ==>
               MembershipLess(memberships[ids[i]], memberships[ids[j]])
    ensures var m := FirstLinked(memberships, ids, userId, orgId);
            && (m.None? ==> forall id :: id in ids ==> !Fits(memberships, id, userId, orgId))
            && (m.Some? ==> forall id :: id in ids && Fits(memberships, id, userId, orgId) ==>
                              memberships[id] == m.value || MembershipLess(m.value, memberships[id]))
  {
    if ids != [] && !Fits(memberships, ids[0], userId, orgId) {
      FirstIsEarliest(memberships, ids[1..], userId, orgId);
      assert ids == [ids[0]] + ids[1..];
    }
  }

  lemma SameMembership(p: Profiles, q: IdentityRequest)
    requires SavedInOrder(p)
    ensures MembershipFor(p, q) == ResolveMembership(p.rows, q)
  {
    if q.membershipId.None? {
      MembershipRowsMeaning(p.rows, q.userId, q.orgId);
      FirstIsEarliest(p.rows.memberships, p.membershipOrder, q.userId, q.orgId);
      FirstLinkedIsOne(p.rows.memberships, p.membershipOrder, q.userId, q.orgId);
      LeastIsEarliest(p.rows, q.userId, q.orgId,
                      FirstLinked(p.rows.memberships, p.membershipOrder, q.userId, q.orgId));
    }
  }

  // The least of the user's memberships is the earliest.
  lemma LeastIsEarliest(t: Tables, userId: Id, orgId: Option<Id>, least: Option<Membership>)
    requires least.Some? ==> least.value in MembershipRows(t, userId, orgId)
    requires least.Some? ==> forall m :: m in MembershipRows(t, userId, orgId) ==>
               m == least.value || MembershipLess(least.value, m)
    requires least.None? ==> MembershipRows(t, userId, orgId) == {}
    ensures EarliestMembership(t, userId, orgId) == least
  {
    if least.Some? {
      MembershipOrder();
      EarliestIsFirst(t, userId, orgId, least.value);
    }
  }

  // The in-memory store answers as the Postgres store does when there are no entitlements and the
  // memberships were last saved in the order of their creation.
  lemma StoresAgree(p: Profiles, q: IdentityRequest)
    requires SavedInOrder(p) && p.rows.entitlements == map[]
    ensures IdentityFor(p, q) == PlainAnswer(p.rows, q)
  {
    SameMembership(p, q);
    var answer := PlainAnswer(p.rows, q);
    if answer.Ok? {
      var key := Resolve(p.rows, q).value;
      var rows := EntitlementListing(p.rows, SubjectsOf(p.rows, key));
      EntitlementRowsMeaning(p.rows, SubjectsOf(p.rows, key));
      ElementsEmpty(rows);
    }
  }
}
