/** What an effective identity is made of, field by field, and when there is none. */
module IdentityMeaning {
  import opened Prelude
  import opened Contracts
  import opened Ordering
  import opened ProfileTables

  // The organisation an identity is for: the one given, else the membership's, else the user's own,
  // if it is stored.
  lemma OrgMeaning(t: Tables, q: IdentityRequest, m: Option<Membership>)
    requires q.userId in t.users && ResolveMembership(t, q) == Ok(m) && PlainAnswer(t, q).Ok?
    ensures var wanted := if q.orgId.Some? then q.orgId
                          else if m.Some? then Some(m.value.orgId)
                          else t.users[q.userId].primaryOrgId;
            PlainAnswer(t, q).value.orgId == if wanted.Some? && wanted.value in t.orgs then wanted else None
  {
  }

  // User, role, scopes, and the entitlements of the user, the organisation and the membership.
  lemma IdentityMeaning(t: Tables, q: IdentityRequest, m: Option<Membership>)
    requires q.userId in t.users && ResolveMembership(t, q) == Ok(m) && PlainAnswer(t, q).Ok?
    ensures var i := PlainAnswer(t, q).value;
            && i.userId == q.userId && i.scopes == []
            && i.roles == (if m.Some? then [m.value.role] else [])
            && (forall name :: name in i.entitlements <==>
                  exists id: Id :: GrantedTo(t, id, i.userId, i.orgId, m) && t.entitlements[id].entitlement == name)
  {
    var key := Resolve(t, q).value;
    assert key.membershipId == if m.Some? then Some(m.value.id) else None;
    EntitlementMeaning(t, key, m);
  }

  lemma EntitlementMeaning(t: Tables, key: IdentityKey, m: Option<Membership>)
    requires key.membershipId == if m.Some? then Some(m.value.id) else None
    ensures forall name :: name in EntitlementsOf(t, key) <==>
              exists id: Id ::
                GrantedTo(t, id, key.userId, OrgIdOf(t, key), m) && t.entitlements[id].entitlement == name
  {
    var rows := EntitlementListing(t, SubjectsOf(t, key));
    EntitlementRowsMeaning(t, SubjectsOf(t, key));
    FirstOccurrencesMeaning(Names(rows));
    forall e ensures e in rows <==> e.id in t.entitlements && t.entitlements[e.id] == e
                                    && GrantedTo(t, e.id, key.userId, OrgIdOf(t, key), m)
    {
      SubjectMeaning(t, key, m, e);
      assert e in rows <==> e in Elements(rows);
    }
    NamesMeaning(rows);
  }

  lemma SubjectMeaning(t: Tables, key: IdentityKey, m: Option<Membership>, e: Entitlement)
    requires key.membershipId == if m.Some? then Some(m.value.id) else None
    ensures e.id in t.entitlements && t.entitlements[e.id] == e ==>
              (e.subject in SubjectsOf(t, key) <==> GrantedTo(t, e.id, key.userId, OrgIdOf(t, key), m))
  {
    assert e.subject == Subject(e.subject.kind, e.subject.id);
  }

  lemma NamesMeaning(rows: seq<Entitlement>)
    ensures forall name :: name in Names(rows) <==> exists e :: e in rows && e.entitlement == name
  {
    forall e | e in rows ensures e.entitlement in Names(rows) {
      var i :| 0 <= i < |rows| && rows[i] == e;
      assert Names(rows)[i] == e.entitlement;
    }
    forall name | name in Names(rows) ensures exists e :: e in rows && e.entitlement == name {
      var i :| 0 <= i < |rows| && Names(rows)[i] == name;
      assert rows[i] in rows;
    }
  }

  // The row grants something to the user, to the organisation, or to the membership.
  predicate GrantedTo(t: Tables, id: Id, userId: Id, orgId: Option<Id>, m: Option<Membership>) {
    id in t.entitlements &&
    match t.entitlements[id].subject
    case Subject(UserSubject, subject) => subject == userId
    case Subject(OrgSubject, subject) => orgId == Some(subject)
    case Subject(MembershipSubject, subject) => m.Some? && subject == m.value.id
  }

  // Rows come in the order of their creation, then of their names, then of their ids.
  lemma ListingMeaning(t: Tables, subjects: set<Subject>, i: nat, j: nat)
    requires i < j < |EntitlementListing(t, subjects)|
    ensures var rows := EntitlementListing(t, subjects);
            && rows[i].createdAt <= rows[j].createdAt
            && (rows[i].createdAt == rows[j].createdAt && rows[i].entitlement != rows[j].entitlement ==>
                  StringLess(rows[i].entitlement, rows[j].entitlement))
            && (rows[i].createdAt == rows[j].createdAt && rows[i].entitlement == rows[j].entitlement ==>
                  StringLess(rows[i].id, rows[j].id))
  {
    StringOrder();
  }

  // Which errors there are, and when.
  lemma ErrorMeaning(t: Tables, q: IdentityRequest)
    ensures PlainAnswer(t, q) == Err(UserNotFound(q.userId)) <==> q.userId !in t.users
    ensures q.userId in t.users && q.membershipId.Some? ==>
              var id := q.membershipId.value;
              && (PlainAnswer(t, q) == Err(MembershipNotFound(id)) <==> id !in t.memberships)
              && (PlainAnswer(t, q) == Err(MembershipOfOtherUser(id)) <==>
                    id in t.memberships && t.memberships[id].userId != q.userId)
              && (PlainAnswer(t, q) == Err(MembershipOfOtherOrg(id)) <==>
                    id in t.memberships && t.memberships[id].userId == q.userId
                    && q.orgId.Some? && t.memberships[id].orgId != q.orgId.value)
    ensures q.userId in t.users && q.membershipId.None? ==>
              (PlainAnswer(t, q).Err? <==> q.orgId.Some? && q.orgId.value !in t.orgs)
    ensures q.userId in t.users && ResolveMembership(t, q).Ok? && q.orgId.Some? && q.orgId.value !in t.orgs ==>
              PlainAnswer(t, q) == Err(OrgNotFound(q.orgId.value))
  {
  }

  // The groups, if they are asked for, are those of the membership's list that are stored.
  lemma GroupsMeaning(t: Tables, q: IdentityRequest, m: Option<Membership>)
    requires q.userId in t.users && ResolveMembership(t, q) == Ok(m) && PlainAnswer(t, q).Ok?
    ensures forall id :: id in PlainAnswer(t, q).value.groups <==>
              q.includeGroups && m.Some? && id in m.value.groupIds && id in t.groups
  {
    IdentityGroups(t, Resolve(t, q).value);
  }

  // ------------------------------------------------------------------------- labels

  // Listed group j is stored and has the label.
  ghost predicate GroupHas(t: Tables, ids: seq<Id>, name: string, j: nat) {
    j < |ids| && ids[j] in t.groups && name in t.groups[ids[j]].labels
  }

  lemma {:induction false} MergeAppend(a: seq<LabelSet>, b: seq<LabelSet>)
    ensures MergeLabels(a + b) == MergeLabels(a) + MergeLabels(b)
  {
    if b == [] {
      assert a + b == a;
    } else {
      assert Front(a + b) == a + Front(b) && Last(a + b) == Last(b);
      MergeAppend(a, Front(b));
    }
  }

  lemma {:induction false} GivenAppend<T>(a: seq<Option<T>>, b: seq<Option<T>>)
    ensures Given(a + b) == Given(a) + Given(b)
  {
    if b == [] {
      assert a + b == a;
    } else {
      assert Front(a + b) == a + Front(b) && Last(a + b) == Last(b);
      GivenAppend(a, Front(b));
    }
  }

  // The last listed group that is stored and has the label.
  function LastWith(t: Tables, ids: seq<Id>, name: string): (last: Option<nat>)
    ensures last.Some? ==> last.value < |ids| && GroupHas(t, ids, name, last.value)
  {
    if ids == [] then None
    else if Last(ids) in t.groups && name in t.groups[Last(ids)].labels then Some(|ids| - 1)
    else LastWith(t, Front(ids), name)
  }

  lemma {:induction false} LastWithMeaning(t: Tables, ids: seq<Id>, name: string, j: nat)
    requires GroupHas(t, ids, name, j)
    ensures LastWith(t, ids, name).Some? && j <= LastWith(t, ids, name).value
  {
    if j < |ids| - 1 && LastWith(t, ids, name) != Some(|ids| - 1) {
      LastWithMeaning(t, Front(ids), name, j);
    }
  }

  // The labels that listed groups give: those of the last stored one that has them.
  lemma {:induction false} GroupLabelsMerged(t: Tables, ids: seq<Id>, name: string)
    ensures Get(MergeLabels(Given(GroupLabels(GroupsByIds(t, ids)))), name) ==
            match LastWith(t, ids, name)
            case None => None
            case Some(j) => Some(t.groups[ids[j]].labels[name])
  {
    if ids != [] {
      GroupLabelsMerged(t, Front(ids), name);
      MergedNext(t, ids);
      NextLabels(t, ids, name, MergeLabels(Given(GroupLabels(GroupsByIds(t, Front(ids))))),
                 MergeLabels(Given(GroupLabels(GroupsByIds(t, ids)))));
    }
  }

  lemma NextLabels(t: Tables, ids: seq<Id>, name: string, before: LabelSet, after: LabelSet)
    requires ids != []
    requires after == if Last(ids) in t.groups then before + t.groups[Last(ids)].labels else before
    requires Get(before, name) ==
             match LastWith(t, Front(ids), name)
             case None => None
             case Some(j) => Some(t.groups[ids[j]].labels[name])
    ensures Get(after, name) ==
            match LastWith(t, ids, name)
            case None => None
            case Some(j) => Some(t.groups[ids[j]].labels[name])
  {
  }

  lemma MergedNext(t: Tables, ids: seq<Id>)
    requires ids != []
    ensures var before, after := GroupsByIds(t, Front(ids)), GroupsByIds(t, ids);
            if Last(ids) in t.groups
            then MergeLabels(Given(GroupLabels(after))) ==
                 MergeLabels(Given(GroupLabels(before))) + t.groups[Last(ids)].labels
            else after == before
  {
    var groups := GroupsByIds(t, Front(ids));
    if Last(ids) in t.groups {
      assert GroupsByIds(t, ids) == groups + [t.groups[Last(ids)]];
      OneMoreGroup(groups, t.groups[Last(ids)]);
    } else {
      assert groups + [] == groups;
    }
  }

  lemma OneMoreGroup(groups: seq<Group>, g: Group)
    ensures MergeLabels(Given(GroupLabels(groups + [g]))) == MergeLabels(Given(GroupLabels(groups))) + g.labels
  {
    assert GroupLabels(groups + [g]) == GroupLabels(groups) + [Some(g.labels)];
    OneMore(GroupLabels(groups), Some(g.labels));
  }

  lemma GivenOne<T>(x: T)
    ensures Given([Some(x)]) == [x]
  {
    assert Front([Some(x)]) == [];
  }

  lemma MergeOne(labels: LabelSet)
    ensures MergeLabels([labels]) == labels
  {
    assert Front([labels]) == [];
  }

  // Labels of an identity, name by name: the last stored listed group that has one, else the
  // membership, else the organisation, else the user.
  lemma LabelMeaning(t: Tables, key: IdentityKey, name: string)
    requires Resolvable(t, key)
    ensures var labels, m, o := Evaluate(t, key).labels, MembershipOf(t, key), OrgOf(t, key);
            var ids := if key.includeGroups && m.Some? then m.value.groupIds else [];
            && (forall j: nat ::
                  GroupHas(t, ids, name, j) && (forall k: nat :: k > j ==> !GroupHas(t, ids, name, k)) ==>
                  Get(labels, name) == Some(t.groups[ids[j]].labels[name]))
            && ((forall j: nat :: !GroupHas(t, ids, name, j)) ==>
                  Get(labels, name) ==
                  if m.Some? && name in m.value.labelsDelta then Some(m.value.labelsDelta[name])
                  else if o.Some? && name in o.value.labels then Some(o.value.labels[name])
                  else Get(t.users[key.userId].labels, name))
  {
    var m, o := MembershipOf(t, key), OrgOf(t, key);
    var ids := if key.includeGroups && m.Some? then m.value.groupIds else [];
    LabelsSplit(t, key, ids);
    GroupLabelsMerged(t, ids, name);
    var user, org := t.users[key.userId].labels, if o.Some? then Some(o.value.labels) else None;
    var delta := if m.Some? then Some(m.value.labelsDelta) else None;
    OwnLabels(user, org, delta, name);
    Layered(t, ids, name, MergeLabels(Given([Some(user), org, delta])),
            MergeLabels(Given(GroupLabels(GroupsByIds(t, ids)))));
  }

  // The labels of groups go before others.
  lemma Layered(t: Tables, ids: seq<Id>, name: string, own: LabelSet, groups: LabelSet)
    requires Get(groups, name) ==
             match LastWith(t, ids, name)
             case None => None
             case Some(j) => Some(t.groups[ids[j]].labels[name])
    ensures forall j: nat :: GroupHas(t, ids, name, j) && (forall k: nat :: k > j ==> !GroupHas(t, ids, name, k)) ==>
              Get(own + groups, name) == Some(t.groups[ids[j]].labels[name])
    ensures (forall j: nat :: !GroupHas(t, ids, name, j)) ==> Get(own + groups, name) == Get(own, name)
  {
    forall j: nat | GroupHas(t, ids, name, j)
      ensures LastWith(t, ids, name).Some? && j <= LastWith(t, ids, name).value
    {
      LastWithMeaning(t, ids, name, j);
    }
  }

  lemma LabelsSplit(t: Tables, key: IdentityKey, ids: seq<Id>)
    requires Resolvable(t, key)
    requires ids == if key.includeGroups && MembershipOf(t, key).Some? then MembershipOf(t, key).value.groupIds else []
    ensures var m, o := MembershipOf(t, key), OrgOf(t, key);
            Evaluate(t, key).labels ==
            MergeLabels(Given([Some(t.users[key.userId].labels), if o.Some? then Some(o.value.labels) else None,
                               if m.Some? then Some(m.value.labelsDelta) else None])) +
            MergeLabels(Given(GroupLabels(GroupsByIds(t, ids))))
  {
    var m, o := MembershipOf(t, key), OrgOf(t, key);
    var own := [Some(t.users[key.userId].labels), if o.Some? then Some(o.value.labels) else None,
                if m.Some? then Some(m.value.labelsDelta) else None];
    assert GroupsOf(t, key) == GroupsByIds(t, ids);
    assert LabelOperands(t, key) == own + GroupLabels(GroupsByIds(t, ids));
    GivenAppend(own, GroupLabels(GroupsByIds(t, ids)));
    MergeAppend(Given(own), Given(GroupLabels(GroupsByIds(t, ids))));
  }

  lemma OwnLabels(user: LabelSet, org: Option<LabelSet>, delta: Option<LabelSet>, name: string)
    ensures Get(MergeLabels(Given([Some(user), org, delta])), name) ==
            if delta.Some? && name in delta.value then Some(delta.value[name])
            else if org.Some? && name in org.value then Some(org.value[name])
            else Get(user, name)
  {
    assert [Some(user), org, delta] == [Some(user)] + [org] + [delta];
    OneMore([Some(user)] + [org], delta);
    OneMore([Some(user)], org);
    GivenOne(user);
    MergeOne(user);
  }

  lemma OneMore(operands: seq<Option<LabelSet>>, x: Option<LabelSet>)
    ensures MergeLabels(Given(operands + [x])) == MergeLabels(Given(operands)) + x.GetOr(map[])
  {
    GivenAppend(operands, [x]);
    GivenOption(x);
    MergeAppend(Given(operands), Given([x]));
    MergeOption(x);
  }

  lemma GivenOption<T>(x: Option<T>)
    ensures Given([x]) == if x.Some? then [x.value] else []
  {
    assert Front([x]) == [];
  }

  lemma MergeOption(labels: Option<LabelSet>)
    ensures MergeLabels(if labels.Some? then [labels.value] else []) == if labels.Some? then labels.value else map[]
  {
    if labels.Some? {
      MergeOne(labels.value);
    }
  }

  // The groups are the listed ones that are stored, in the order of the list.
  lemma {:induction false} GroupsInOrder(t: Tables, a: seq<Id>, b: seq<Id>)
    ensures GroupsByIds(t, a + b) == GroupsByIds(t, a) + GroupsByIds(t, b)
    ensures |a| == 1 ==> GroupsByIds(t, a) == if a[0] in t.groups then [t.groups[a[0]]] else []
  {
    if |a| == 1 {
      assert Front(a) == [];
    }
    if b == [] {
      assert a + b == a;
    } else {
      assert Front(a + b) == a + Front(b) && Last(a + b) == Last(b);
      GroupsInOrder(t, a, Front(b));
    }
  }
}
