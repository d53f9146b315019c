/**
 The tables behind the Postgres profile and entitlement stores, and the effective identity as a
 function of them. `IN` and `ORDER BY` clauses are sets of rows and their sorted listings.
 */
module ProfileTables {
  import opened Prelude
  import opened Contracts
  import opened Ordering

  datatype Rows = Rows(
    users: map<Id, User>, orgs: map<Id, Org>, groups: map<Id, Group>,
    memberships: map<Id, Membership>, entitlements: map<Id, Entitlement>)

  // Every row is filed under its own primary key.
  ghost predicate WellKeyed(t: Rows) {
    && (forall id :: id in t.users ==> t.users[id].id == id)
    && (forall id :: id in t.orgs ==> t.orgs[id].id == id)
    && (forall id :: id in t.groups ==> t.groups[id].id == id)
    && (forall id :: id in t.memberships ==> t.memberships[id].id == id)
    && (forall id :: id in t.entitlements ==> t.entitlements[id].id == id)
  }

  type Tables = t: Rows | WellKeyed(t) witness Rows(map[], map[], map[], map[], map[])

  // ----------------------------------------------------------------- row orders

  // ORDER BY created_at, entitlement; rows that agree on both list in the order of their ids.
  function EntitlementLess(a: Entitlement, b: Entitlement): bool {
    a.createdAt < b.createdAt ||
    (a.createdAt == b.createdAt &&
     (StringLess(a.entitlement, b.entitlement) || (a.entitlement == b.entitlement && StringLess(a.id, b.id))))
  }

  // ORDER BY created_at; rows that agree list in the order of their ids.
  function MembershipLess(a: Membership, b: Membership): bool {
    a.createdAt < b.createdAt || (a.createdAt == b.createdAt && StringLess(a.id, b.id))
  }

  lemma EntitlementOrder()
    ensures StrictOrder(EntitlementLess)
    ensures forall a: Entitlement, b: Entitlement :: a.id != b.id ==> EntitlementLess(a, b) || EntitlementLess(b, a)
  {
    StringOrder();
  }

  lemma MembershipOrder()
    ensures StrictOrder(MembershipLess)
    ensures forall a: Membership, b: Membership :: a.id != b.id ==> MembershipLess(a, b) || MembershipLess(b, a)
  {
    StringOrder();
  }

  // -------------------------------------------------------------------- queries

  function EntitlementRows(t: Tables, subjects: set<Subject>): set<Entitlement> {
    set id | id in t.entitlements && t.entitlements[id].subject in subjects :: t.entitlements[id]
  }

  lemma EntitlementRowsMeaning(t: Tables, subjects: set<Subject>)
    ensures forall e :: e in EntitlementRows(t, subjects) <==>
              e.id in t.entitlements && t.entitlements[e.id] == e && e.subject in subjects
  {
  }

  ghost function EntitlementListing(t: Tables, subjects: set<Subject>): (s: seq<Entitlement>)
    ensures Sorted(EntitlementLess, s) && Elements(s) == EntitlementRows(t, subjects)
  {
    EntitlementOrder();
    Listing(EntitlementLess, EntitlementRows(t, subjects))
  }

  function Names(rows: seq<Entitlement>): seq<string> {
    seq(|rows|, i requires 0 <= i < |rows| => rows[i].entitlement)
  }

  function MembershipRows(t: Tables, userId: Id, orgId: Option<Id>): set<Membership> {
    set id | id in t.memberships && t.memberships[id].userId == userId
             && (orgId.Some? ==> t.memberships[id].orgId == orgId.value) :: t.memberships[id]
  }

  lemma MembershipRowsMeaning(t: Tables, userId: Id, orgId: Option<Id>)
    ensures forall m :: m in MembershipRows(t, userId, orgId) <==>
              && m.id in t.memberships && t.memberships[m.id] == m
              && m.userId == userId && (orgId.Some? ==> m.orgId == orgId.value)
  {
  }

  // The first of the rows in their order.
  ghost function EarliestOf(rows: set<Membership>): (r: Option<Membership>)
    requires TotalOn(MembershipLess, rows)
    ensures r.Some? ==> r.value in rows && forall m :: m in rows ==> m == r.value || MembershipLess(r.value, m)
    ensures r.None? <==> rows == {}
  {
    MembershipOrder();
    var listing := Listing(MembershipLess, rows);
    ElementsEmpty(listing);
    if listing == [] then None
    else
      assert listing[0] in Elements(listing);
      assert forall m :: m in rows ==> m in Elements(listing);
      Some(listing[0])
  }

  lemma RowsTotal(t: Tables, rows: set<Membership>)
    requires forall m :: m in rows ==> m.id in t.memberships && t.memberships[m.id] == m
    ensures TotalOn(MembershipLess, rows)
  {
    MembershipOrder();
  }

  ghost function EarliestMembership(t: Tables, userId: Id, orgId: Option<Id>): (r: Option<Membership>)
    ensures r.Some? ==> r.value in MembershipRows(t, userId, orgId)
    ensures r.None? ==> MembershipRows(t, userId, orgId) == {}
  {
    RowsTotal(t, MembershipRows(t, userId, orgId));
    EarliestOf(MembershipRows(t, userId, orgId))
  }

  // The row is a membership of the user, in the organisation if one is given.
  predicate Belongs(t: Tables, userId: Id, orgId: Option<Id>, m: Membership) {
    && m.id in t.memberships && t.memberships[m.id] == m
    && m.userId == userId && (orgId.Some? ==> m.orgId == orgId.value)
  }

  // The implied membership is one of the user's, none of which was created before it; of those
  // created with it, it has the smallest id.
  lemma EarliestMeaning(t: Tables, userId: Id, orgId: Option<Id>, m: Membership)
    requires Belongs(t, userId, orgId, m)
    ensures var first := EarliestMembership(t, userId, orgId);
            && first.Some? && Belongs(t, userId, orgId, first.value)
            && first.value.createdAt <= m.createdAt
            && (first.value.createdAt == m.createdAt && first.value != m ==> StringLess(first.value.id, m.id))
  {
    MembershipRowsMeaning(t, userId, orgId);
    EarliestIsFirst(t, userId, orgId, m);
  }

  // It was created before the others, or with the same time and a smaller id.
  lemma EarliestIsFirst(t: Tables, userId: Id, orgId: Option<Id>, m: Membership)
    requires m in MembershipRows(t, userId, orgId)
    ensures var first := EarliestMembership(t, userId, orgId);
            && first.Some? && first.value in MembershipRows(t, userId, orgId)
            && (m == first.value || MembershipLess(first.value, m))
  {
    RowsTotal(t, MembershipRows(t, userId, orgId));
  }

  // The earliest of the others, if one of them is left out.
  ghost function EarliestOther(t: Tables, userId: Id, orgId: Option<Id>, id: Id): (r: Option<Membership>)
    ensures r.Some? ==> r.value in MembershipRows(t, userId, orgId) && r.value.id != id
    ensures r.None? ==> forall m :: m in MembershipRows(t, userId, orgId) ==> m.id == id
  {
    var others := set m | m in MembershipRows(t, userId, orgId) && m.id != id;
    RowsTotal(t, others);
    assert others == {} ==> forall m :: m in MembershipRows(t, userId, orgId) ==> m.id == id by {
      assert forall m :: m in MembershipRows(t, userId, orgId) && m.id != id ==> m in others;
    }
    EarliestOf(others)
  }

  // Of the others it is the earliest.
  lemma EarliestOtherIsFirst(t: Tables, userId: Id, orgId: Option<Id>, id: Id, m: Membership)
    requires m in MembershipRows(t, userId, orgId) && m.id != id
    ensures var first := EarliestOther(t, userId, orgId, id);
            first.Some? && (m == first.value || MembershipLess(first.value, m))
  {
    var others := set m | m in MembershipRows(t, userId, orgId) && m.id != id;
    assert m in others;
    RowsTotal(t, others);
  }

  lemma EarliestOtherMeaning(t: Tables, userId: Id, orgId: Option<Id>, id: Id, m: Membership)
    requires Belongs(t, userId, orgId, m) && m.id != id
    ensures var first := EarliestOther(t, userId, orgId, id);
            && first.Some? && Belongs(t, userId, orgId, first.value) && first.value.id != id
            && first.value.createdAt <= m.createdAt
            && (first.value.createdAt == m.createdAt && first.value != m ==> StringLess(first.value.id, m.id))
  {
    MembershipRowsMeaning(t, userId, orgId);
    EarliestOtherIsFirst(t, userId, orgId, id, m);
  }

  // `fetchGroupsByIds`, in the order of the id list.
  function GroupsByIds(t: Tables, ids: seq<Id>): seq<Group> {
    if ids == [] then []
    else GroupsByIds(t, Front(ids)) + if Last(ids) in t.groups then [t.groups[Last(ids)]] else []
  }

  function GroupIds(groups: seq<Group>): seq<Id> {
    seq(|groups|, i requires 0 <= i < |groups| => groups[i].id)
  }

  function GroupLabels(groups: seq<Group>): seq<Option<LabelSet>> {
    seq(|groups|, i requires 0 <= i < |groups| => Some(groups[i].labels))
  }

  // ------------------------------------------------------------------- identity

  // `resolveMembership`
  ghost function ResolveMembership(t: Tables, q: IdentityRequest): Result<Option<Membership>, IdentityError> {
    if q.membershipId.Some? then
      var id := q.membershipId.value;
      if id !in t.memberships then Err(MembershipNotFound(id))
      else if t.memberships[id].userId != q.userId then Err(MembershipOfOtherUser(id))
      else if q.orgId.Some? && t.memberships[id].orgId != q.orgId.value then Err(MembershipOfOtherOrg(id))
      else Ok(Some(t.memberships[id]))
    else Ok(EarliestMembership(t, q.userId, q.orgId))
  }

  datatype IdentityKey = IdentityKey(
    userId: Id, orgId: Option<Id>, membershipId: Option<Id>, includeGroups: bool)

  // The key a request resolves to, once its user and membership have been read.
  function KeyFor(user: User, membership: Option<Membership>, q: IdentityRequest): IdentityKey {
    var membershipOrg := if membership.Some? then Some(membership.value.orgId) else None;
    IdentityKey(user.id, q.orgId.OrElse(membershipOrg.OrElse(user.primaryOrgId)),
                if membership.Some? then Some(membership.value.id) else None, q.includeGroups)
  }

  // The rows that a key names are there.
  predicate Resolvable(t: Tables, key: IdentityKey) {
    key.userId in t.users && (key.membershipId.Some? ==> key.membershipId.value in t.memberships)
  }

  function OrgOf(t: Tables, key: IdentityKey): Option<Org> {
    if key.orgId.Some? then Get(t.orgs, key.orgId.value) else None
  }

  function OrgIdOf(t: Tables, key: IdentityKey): Option<Id> {
    if OrgOf(t, key).Some? then Some(OrgOf(t, key).value.id) else None
  }

  function MembershipOf(t: Tables, key: IdentityKey): Option<Membership> {
    if key.membershipId.Some? then Get(t.memberships, key.membershipId.value) else None
  }

  function GroupsOf(t: Tables, key: IdentityKey): seq<Group> {
    var m := MembershipOf(t, key);
    if key.includeGroups && m.Some? then GroupsByIds(t, m.value.groupIds) else []
  }

  function SubjectsOf(t: Tables, key: IdentityKey): set<Subject> {
    {Subject(UserSubject, key.userId)} +
    (if OrgIdOf(t, key).Some? then {Subject(OrgSubject, OrgIdOf(t, key).value)} else {}) +
    (if key.membershipId.Some? then {Subject(MembershipSubject, key.membershipId.value)} else {})
  }

  ghost function EntitlementsOf(t: Tables, key: IdentityKey): seq<string> {
    FirstOccurrences(Names(EntitlementListing(t, SubjectsOf(t, key))))
  }

  function LabelOperands(t: Tables, key: IdentityKey): seq<Option<LabelSet>>
    requires Resolvable(t, key)
  {
    [ Some(t.users[key.userId].labels),
      if OrgOf(t, key).Some? then Some(OrgOf(t, key).value.labels) else None,
      if key.membershipId.Some? then Some(t.memberships[key.membershipId.value].labelsDelta) else None
    ] + GroupLabels(GroupsOf(t, key))
  }

  // What the store computes for a key when no cached value is at hand.
  ghost function Evaluate(t: Tables, key: IdentityKey): EffectiveIdentity
    requires Resolvable(t, key)
  {
    EffectiveIdentity(
      key.userId, OrgIdOf(t, key), FirstOccurrences(GroupIds(GroupsOf(t, key))),
      MergeLabels(Given(LabelOperands(t, key))),
      if key.membershipId.Some? then [t.memberships[key.membershipId.value].role] else [],
      EntitlementsOf(t, key), [])
  }

  // What a request resolves to before the cache is looked at.
  ghost function Resolve(t: Tables, q: IdentityRequest): (r: Result<IdentityKey, IdentityError>)
    ensures r.Ok? ==> Resolvable(t, r.value) && r.value.userId == q.userId
    ensures r.Ok? && q.orgId.Some? ==> r.value.orgId == q.orgId
    ensures r.Ok? && r.value.membershipId.Some? ==>
              r.value.orgId == Some(t.memberships[r.value.membershipId.value].orgId)
  {
    if q.userId !in t.users then Err(UserNotFound(q.userId))
    else
      match ResolveMembership(t, q)
      case Err(e) => Err(e)
      case Ok(m) => Ok(KeyFor(t.users[q.userId], m, q))
  }

  // The answer without any cache.
  ghost function PlainAnswer(t: Tables, q: IdentityRequest): IdentityAnswer {
    match Resolve(t, q)
    case Err(e) => Err(e)
    case Ok(key) =>
      if q.orgId.Some? && q.orgId.value !in t.orgs then Err(OrgNotFound(q.orgId.value))
      else Ok(Evaluate(t, key))
  }

  // ------------------------------------------------------------------ mutations

  datatype Mutation =
    | UpsertUser(user: User)
    | UpsertOrg(org: Org)
    | UpsertGroup(group: Group)
    | DeleteGroup(groupId: Id)
    | UpsertMembership(membership: Membership)
    | RemoveMembership(membershipId: Id)
    | UpsertEntitlement(entitlement: Entitlement)
    | RemoveEntitlement(entitlementId: Id)

  function After(t: Tables, m: Mutation): Tables {
    match m
    case UpsertUser(u) => t.(users := t.users[u.id := u])
    case UpsertOrg(o) => t.(orgs := t.orgs[o.id := o])
    case UpsertGroup(g) => t.(groups := t.groups[g.id := g])
    case DeleteGroup(id) => t.(groups := t.groups - {id})
    case UpsertMembership(m) => t.(memberships := t.memberships[m.id := m])
    case RemoveMembership(id) => t.(memberships := t.memberships - {id})
    case UpsertEntitlement(e) => t.(entitlements := t.entitlements[e.id := e])
    case RemoveEntitlement(id) => t.(entitlements := t.entitlements - {id})
  }

  // What each mutation does to each row, and to no other table.
  lemma AfterMeaning(t: Tables, m: Mutation, k: Id)
    ensures var u := After(t, m);
            && Get(u.users, k) == (if m.UpsertUser? && k == m.user.id then Some(m.user) else Get(t.users, k))
            && Get(u.orgs, k) == (if m.UpsertOrg? && k == m.org.id then Some(m.org) else Get(t.orgs, k))
            && Get(u.groups, k) == (if m.UpsertGroup? && k == m.group.id then Some(m.group)
                                    else if m.DeleteGroup? && k == m.groupId then None
                                    else Get(t.groups, k))
            && Get(u.memberships, k) == (if m.UpsertMembership? && k == m.membership.id then Some(m.membership)
                                         else if m.RemoveMembership? && k == m.membershipId then None
                                         else Get(t.memberships, k))
            && Get(u.entitlements, k) == (if m.UpsertEntitlement? && k == m.entitlement.id then Some(m.entitlement)
                                          else if m.RemoveEntitlement? && k == m.entitlementId then None
                                          else Get(t.entitlements, k))
  {
  }

  // The tables refuse a mutation that would repeat a slug, or an entitlement of a subject.
  ghost predicate Conflicts(t: Tables, m: Mutation) {
    match m
    case UpsertOrg(o) => exists id :: id in t.orgs && id != o.id && t.orgs[id].slug == o.slug
    case UpsertEntitlement(e) =>
      exists id :: id in t.entitlements && id != e.id && SameGrant(t.entitlements[id], e)
    case _ => false
  }

  predicate SameGrant(a: Entitlement, b: Entitlement) {
    a.subject == b.subject && a.entitlement == b.entitlement
  }

  // What becomes of the tables, refused or not.
  ghost function Tried(t: Tables, m: Mutation): Tables {
    if Conflicts(t, m) then t else After(t, m)
  }

  // The tables keep slugs and entitlements of a subject unique.
  ghost predicate Unique(t: Tables) {
    && (forall a, b :: a in t.orgs && b in t.orgs && t.orgs[a].slug == t.orgs[b].slug ==> a == b)
    && (forall a, b ::
          (&& a in t.entitlements && b in t.entitlements
           && t.entitlements[a].subject == t.entitlements[b].subject
           && t.entitlements[a].entitlement == t.entitlements[b].entitlement) ==>
            a == b)
  }

  // A mutation keeps them so exactly when it is not refused.
  lemma ConflictsExact(t: Tables, m: Mutation)
    requires Unique(t)
    ensures Unique(After(t, m)) <==> !Conflicts(t, m)
  {
    if m.UpsertEntitlement? {
      EntitlementConflicts(t, m.entitlement);
    } else if m.UpsertOrg? {
      OrgConflicts(t, m.org);
    }
  }

  lemma OrgConflicts(t: Tables, o: Org)
    requires Unique(t)
    ensures Unique(After(t, UpsertOrg(o))) <==> !Conflicts(t, UpsertOrg(o))
  {
    if Conflicts(t, UpsertOrg(o)) {
      var id :| id in t.orgs && id != o.id && t.orgs[id].slug == o.slug;
      assert After(t, UpsertOrg(o)).orgs[id].slug == After(t, UpsertOrg(o)).orgs[o.id].slug;
    }
  }

  lemma EntitlementConflicts(t: Tables, e: Entitlement)
    requires Unique(t)
    ensures Unique(After(t, UpsertEntitlement(e))) <==> !Conflicts(t, UpsertEntitlement(e))
  {
    var u := After(t, UpsertEntitlement(e));
    if Conflicts(t, UpsertEntitlement(e)) {
      var id :| id in t.entitlements && id != e.id && SameGrant(t.entitlements[id], e);
      assert u.entitlements[id].subject == u.entitlements[e.id].subject;
    }
  }

  // --------------------------------------------------- facts about the functions

  lemma {:induction false} GroupsByIdsElements(t: Tables, ids: seq<Id>)
    ensures forall g :: g in GroupsByIds(t, ids) <==> g.id in ids && g.id in t.groups && t.groups[g.id] == g
  {
    if ids != [] {
      GroupsByIdsElements(t, Front(ids));
      assert ids == Front(ids) + [Last(ids)];
    }
  }

  // The groups of an identity are the listed ids that have a row.
  lemma IdentityGroups(t: Tables, key: IdentityKey)
    requires Resolvable(t, key)
    ensures forall id :: id in Evaluate(t, key).groups <==>
              key.includeGroups && key.membershipId.Some?
              && id in t.memberships[key.membershipId.value].groupIds && id in t.groups
  {
    var groups := GroupsOf(t, key);
    FirstOccurrencesMeaning(GroupIds(groups));
    if key.membershipId.Some? {
      GroupsByIdsElements(t, t.memberships[key.membershipId.value].groupIds);
    }
    forall i | 0 <= i < |groups| ensures groups[i].id in GroupIds(groups) {
      assert GroupIds(groups)[i] == groups[i].id;
    }
    forall id | id in GroupIds(groups) ensures exists g :: g in groups && g.id == id {
      var i :| 0 <= i < |groups| && GroupIds(groups)[i] == id;
      assert groups[i] in groups;
    }
    forall id | key.includeGroups && key.membershipId.Some?
                && id in t.memberships[key.membershipId.value].groupIds && id in t.groups
      ensures id in GroupIds(groups)
    {
      assert t.groups[id] in groups;
    }
  }

  lemma {:induction false} GroupsByIdsSame(t: Tables, u: Tables, ids: seq<Id>)
    requires forall id :: id in ids ==> Get(t.groups, id) == Get(u.groups, id)
    ensures GroupsByIds(t, ids) == GroupsByIds(u, ids)
  {
    if ids != [] {
      assert Last(ids) in ids;
      GroupsByIdsSame(t, u, Front(ids));
    }
  }
}
