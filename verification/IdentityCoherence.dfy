/**
 Caching effective identities is invisible: exactly which mutations keep the cached identities
 right, and the theorem over whole runs.
 */
module IdentityCoherence {
  import opened Prelude
  import opened Contracts
  import opened Ordering
  import opened MemoryCache
  import opened CacheInvalidation
  import opened ProfileTables

  type IdentityEntries = Entries<IdentityKey, EffectiveIdentity, IdentityTag>

  // The tags an identity is cached under.
  function TagsOf(key: IdentityKey, identity: EffectiveIdentity): set<IdentityTag> {
    IdentityTags(Context(Some(key.userId), identity.orgId, key.membershipId, identity.groups))
  }

  function SubjectContext(s: Subject): Context {
    match s.kind
    case UserSubject => Context(Some(s.id), None, None, [])
    case OrgSubject => Context(None, Some(s.id), None, [])
    case MembershipSubject => Context(None, None, Some(s.id), [])
  }

  function MembershipContext(m: Membership): Context {
    Context(Some(m.userId), Some(m.orgId), Some(m.id), m.groupIds)
  }

  // What a mutation tells the invalidator; a delete that finds no row tells nothing.
  function Notice(t: Tables, m: Mutation): Option<Context> {
    match m
    case UpsertUser(u) => Some(Context(Some(u.id), None, None, []))
    case UpsertOrg(o) => Some(Context(None, Some(o.id), None, []))
    case UpsertGroup(g) => Some(Context(None, Some(g.orgId), None, [g.id]))
    case DeleteGroup(id) =>
      if id in t.groups then Some(Context(None, Some(t.groups[id].orgId), None, [id])) else None
    case UpsertMembership(m) => Some(MembershipContext(m))
    case RemoveMembership(id) =>
      if id in t.memberships then Some(MembershipContext(t.memberships[id])) else None
    case UpsertEntitlement(e) => Some(SubjectContext(e.subject))
    case RemoveEntitlement(id) =>
      if id in t.entitlements then Some(SubjectContext(t.entitlements[id].subject)) else None
  }

  function Purged(entries: IdentityEntries, notice: Option<Context>): IdentityEntries {
    if notice.None? then entries else Invalidated(entries, IdentityTags(notice.value))
  }

  // ------------------------------------------------------------------- coherence

  ghost predicate Right(t: Tables, key: IdentityKey, e: Entry<EffectiveIdentity, IdentityTag>) {
    Resolvable(t, key) && e.value == Evaluate(t, key) && e.tags == TagsOf(key, e.value)
  }

  // Every cached identity is the one that would be computed now, under the tags it would get now.
  ghost predicate Coherent(t: Tables, entries: IdentityEntries) {
    forall key :: key in entries ==> Right(t, key, entries[key])
  }

  lemma SameProfileInputs(t: Tables, u: Tables, key: IdentityKey)
    requires Resolvable(t, key) && Resolvable(u, key)
    requires t.users[key.userId] == u.users[key.userId]
    requires OrgOf(t, key) == OrgOf(u, key)
    requires MembershipOf(t, key) == MembershipOf(u, key)
    requires key.includeGroups && key.membershipId.Some? ==>
               forall id :: id in t.memberships[key.membershipId.value].groupIds ==>
                 Get(t.groups, id) == Get(u.groups, id)
    ensures Evaluate(u, key) == Evaluate(t, key).(entitlements := EntitlementsOf(u, key))
  {
    if key.includeGroups && key.membershipId.Some? {
      GroupsByIdsSame(t, u, t.memberships[key.membershipId.value].groupIds);
    }
    assert GroupsOf(t, key) == GroupsOf(u, key);
    assert LabelOperands(t, key) == LabelOperands(u, key);
  }

  lemma SameEntitlementRows(t: Tables, u: Tables, key: IdentityKey)
    requires SubjectsOf(t, key) == SubjectsOf(u, key)
    requires EntitlementRows(t, SubjectsOf(t, key)) == EntitlementRows(u, SubjectsOf(t, key))
    ensures EntitlementsOf(t, key) == EntitlementsOf(u, key)
  {
    EntitlementOrder();
    var subjects := SubjectsOf(t, key);
    ListingUnique(EntitlementLess, EntitlementListing(t, subjects), EntitlementListing(u, subjects));
  }

  lemma SameEntitlements(t: Tables, u: Tables, key: IdentityKey)
    requires t.entitlements == u.entitlements && OrgIdOf(t, key) == OrgIdOf(u, key)
    ensures EntitlementsOf(t, key) == EntitlementsOf(u, key)
  {
    assert EntitlementRows(t, SubjectsOf(t, key)) == EntitlementRows(u, SubjectsOf(t, key));
    SameEntitlementRows(t, u, key);
  }

  // The membership of the key lists the group.
  predicate Lists(t: Tables, key: IdentityKey, groupId: Id) {
    && key.includeGroups
    && MembershipOf(t, key).Some?
    && groupId in MembershipOf(t, key).value.groupIds
  }

  // Row i comes after a row of the same name, or is followed by one before any name that is not
  // listed yet.
  ghost predicate ShadowedAt(rows: seq<Entitlement>, i: nat)
    requires i < |rows|
  {
    || rows[i].entitlement in Names(rows[..i])
    || NextNew(Elements(Names(rows[..i])), Names(rows[i + 1..])) == Some(rows[i].entitlement)
  }

  ghost predicate Shadowed(t: Tables, key: IdentityKey, e: Entitlement) {
    var rows := EntitlementListing(t, SubjectsOf(t, key));
    exists i :: 0 <= i < |rows| && rows[i] == e && ShadowedAt(rows, i)
  }

  // Whether a mutation leaves the cached identity of this key right.
  ghost predicate Harmless(t: Tables, key: IdentityKey, m: Mutation) {
    match m
    case UpsertOrg(o) => o.id in t.orgs || key.orgId != Some(o.id)
    case UpsertGroup(g) => g.id in t.groups || !Lists(t, key, g.id) || OrgIdOf(t, key) == Some(g.orgId)
    case UpsertEntitlement(e) =>
      e.id in t.entitlements
      && t.entitlements[e.id].subject in SubjectsOf(t, key) && e.subject !in SubjectsOf(t, key) ==>
        Shadowed(t, key, t.entitlements[e.id])
    case _ => true
  }

  // The tags of a right entry, in terms of the tables.
  predicate Carries(t: Tables, key: IdentityKey, tag: IdentityTag) {
    match tag
    case IdentityUser(id) => id == key.userId
    case IdentityOrg(id) => OrgIdOf(t, key) == Some(id)
    case IdentityMembership(id) => key.membershipId == Some(id)
    case IdentityGroup(id) => Lists(t, key, id) && id in t.groups
  }

  lemma RightTags(t: Tables, key: IdentityKey)
    requires Resolvable(t, key)
    ensures forall tag :: tag in TagsOf(key, Evaluate(t, key)) <==> Carries(t, key, tag)
  {
    IdentityGroups(t, key);
    var identity := Evaluate(t, key);
    forall tag ensures tag in TagsOf(key, identity) <==> Carries(t, key, tag) {
      CarriedTag(t, key, identity, tag);
    }
  }

  lemma CarriedTag(t: Tables, key: IdentityKey, identity: EffectiveIdentity, tag: IdentityTag)
    requires Resolvable(t, key) && identity.orgId == OrgIdOf(t, key)
    requires forall id :: id in identity.groups <==>
               key.includeGroups && key.membershipId.Some?
               && id in t.memberships[key.membershipId.value].groupIds && id in t.groups
    ensures tag in TagsOf(key, identity) <==> Carries(t, key, tag)
  {
    IdentityTagsMeaning(Context(Some(key.userId), identity.orgId, key.membershipId, identity.groups));
  }

  function SubjectTag(s: Subject): IdentityTag {
    match s.kind
    case UserSubject => IdentityUser(s.id)
    case OrgSubject => IdentityOrg(s.id)
    case MembershipSubject => IdentityMembership(s.id)
  }

  // An entitlement's change purges exactly the keys it is listed for.
  lemma SubjectTags(t: Tables, key: IdentityKey, s: Subject)
    ensures forall tag :: tag in IdentityTags(SubjectContext(s)) <==> tag == SubjectTag(s)
    ensures Carries(t, key, SubjectTag(s)) <==> s in SubjectsOf(t, key)
  {
    assert s == Subject(s.kind, s.id);
  }

  lemma MovedEntitlement(t: Tables, key: IdentityKey, e: Entitlement)
    requires e.id in t.entitlements
    requires t.entitlements[e.id].subject in SubjectsOf(t, key) && e.subject !in SubjectsOf(t, key)
    ensures var u := After(t, UpsertEntitlement(e));
            EntitlementsOf(u, key) == EntitlementsOf(t, key) <==> Shadowed(t, key, t.entitlements[e.id])
  {
    var u, was := After(t, UpsertEntitlement(e)), t.entitlements[e.id];
    var subjects := SubjectsOf(t, key);
    MovedRows(t, subjects, e);
    var rows := EntitlementListing(t, subjects);
    var i :| 0 <= i < |rows| && rows[i] == was;
    MovedRow(t, u, subjects, i);
    DroppedName(rows, i);
    OneIndex(rows, i);
    assert SubjectsOf(u, key) == subjects;
  }

  lemma OneIndex(rows: seq<Entitlement>, i: nat)
    requires Sorted(EntitlementLess, rows) && i < |rows|
    ensures forall j :: 0 <= j < |rows| && rows[j] == rows[i] ==> j == i
  {
    EntitlementOrder();
  }

  lemma MovedRows(t: Tables, subjects: set<Subject>, e: Entitlement)
    requires e.id in t.entitlements && t.entitlements[e.id].subject in subjects && e.subject !in subjects
    ensures EntitlementRows(After(t, UpsertEntitlement(e)), subjects) ==
            EntitlementRows(t, subjects) - {t.entitlements[e.id]}
    ensures t.entitlements[e.id] in EntitlementListing(t, subjects)
  {
    var u := After(t, UpsertEntitlement(e));
    EntitlementRowsMeaning(t, subjects);
    EntitlementRowsMeaning(u, subjects);
    assert t.entitlements[e.id] in Elements(EntitlementListing(t, subjects));
  }

  lemma MovedRow(t: Tables, u: Tables, subjects: set<Subject>, i: nat)
    requires i < |EntitlementListing(t, subjects)|
    requires EntitlementRows(u, subjects) == EntitlementRows(t, subjects) - {EntitlementListing(t, subjects)[i]}
    ensures var rows := EntitlementListing(t, subjects);
            EntitlementListing(u, subjects) == rows[..i] + rows[i + 1..]
  {
    EntitlementOrder();
    var rows := EntitlementListing(t, subjects);
    RemoveAt(EntitlementLess, rows, i);
    ListingUnique(EntitlementLess, EntitlementListing(u, subjects), rows[..i] + rows[i + 1..]);
  }

  lemma DroppedName(rows: seq<Entitlement>, i: nat)
    requires i < |rows|
    ensures FirstOccurrences(Names(rows[..i] + rows[i + 1..])) == FirstOccurrences(Names(rows)) <==>
            ShadowedAt(rows, i)
  {
    var a, b := Names(rows[..i]), Names(rows[i + 1..]);
    assert Names(rows) == a + [rows[i].entitlement] + b;
    assert Names(rows[..i] + rows[i + 1..]) == a + b;
    DroppingUnnoticed(a, rows[i].entitlement, b);
  }

  // The mutation purges none of the tags of the key.
  ghost predicate Survives(t: Tables, key: IdentityKey, m: Mutation) {
    Notice(t, m).Some? ==> forall tag :: tag in IdentityTags(Notice(t, m).value) ==> !Carries(t, key, tag)
  }

  lemma SurvivorMeaning(t: Tables, key: IdentityKey, m: Mutation)
    requires Survives(t, key, m) && Notice(t, m).Some?
    ensures var c := Notice(t, m).value;
            && c.userId != Some(key.userId)
            && (c.orgId.Some? ==> OrgIdOf(t, key) != c.orgId)
            && (c.membershipId.Some? ==> key.membershipId != c.membershipId)
            && (forall id :: id in c.groupIds && id in t.groups ==> !Lists(t, key, id))
  {
    var tags := IdentityTags(Notice(t, m).value);
    forall id | id in Notice(t, m).value.groupIds && id in t.groups ensures !Lists(t, key, id) {
      assert IdentityGroup(id) in tags;
    }
    assert !Carries(t, key, IdentityUser(key.userId)) || IdentityUser(key.userId) !in tags;
    assert OrgIdOf(t, key).Some? ==> IdentityOrg(OrgIdOf(t, key).value) !in tags;
    assert key.membershipId.Some? ==> IdentityMembership(key.membershipId.value) !in tags;
  }

  lemma EntitlementSurvivor(t: Tables, key: IdentityKey, m: Mutation)
    requires Resolvable(t, key) && Survives(t, key, m)
    requires m.UpsertEntitlement? || (m.RemoveEntitlement? && m.entitlementId in t.entitlements)
    ensures Resolvable(After(t, m), key)
    ensures Evaluate(After(t, m), key) == Evaluate(t, key) <==> Harmless(t, key, m)
  {
    var u := After(t, m);
    SameProfileInputs(t, u, key);
    assert Evaluate(t, key).entitlements == EntitlementsOf(t, key);
    EntitlementsExact(t, key, m);
  }

  lemma EntitlementsExact(t: Tables, key: IdentityKey, m: Mutation)
    requires Survives(t, key, m)
    requires m.UpsertEntitlement? || (m.RemoveEntitlement? && m.entitlementId in t.entitlements)
    ensures EntitlementsOf(After(t, m), key) == EntitlementsOf(t, key) <==> Harmless(t, key, m)
  {
    var subjects := SubjectsOf(t, key);
    var changed := if m.UpsertEntitlement? then m.entitlement.subject else t.entitlements[m.entitlementId].subject;
    SubjectTags(t, key, changed);
    assert SubjectTag(changed) in IdentityTags(Notice(t, m).value);
    assert changed !in subjects;
    if m.UpsertEntitlement? && m.entitlement.id in t.entitlements
       && t.entitlements[m.entitlement.id].subject in subjects {
      MovedEntitlement(t, key, m.entitlement);
    } else {
      UnmovedRows(t, subjects, m);
      SameEntitlementRows(t, After(t, m), key);
    }
  }

  lemma UnmovedRows(t: Tables, subjects: set<Subject>, m: Mutation)
    requires match m
      case UpsertEntitlement(e) =>
        e.subject !in subjects && (e.id in t.entitlements ==> t.entitlements[e.id].subject !in subjects)
      case RemoveEntitlement(id) => id in t.entitlements && t.entitlements[id].subject !in subjects
      case _ => false
    ensures EntitlementRows(After(t, m), subjects) == EntitlementRows(t, subjects)
  {
    EntitlementRowsMeaning(t, subjects);
    EntitlementRowsMeaning(After(t, m), subjects);
  }

  lemma NewGroupShows(t: Tables, key: IdentityKey, g: Group)
    requires Resolvable(t, key) && Lists(t, key, g.id) && g.id !in t.groups
    ensures Evaluate(After(t, UpsertGroup(g)), key) != Evaluate(t, key)
  {
    IdentityGroups(t, key);
    IdentityGroups(After(t, UpsertGroup(g)), key);
  }

  lemma GroupSurvivor(t: Tables, key: IdentityKey, m: Mutation)
    requires Resolvable(t, key) && Survives(t, key, m)
    requires m.UpsertGroup? || (m.DeleteGroup? && m.groupId in t.groups)
    ensures Resolvable(After(t, m), key)
    ensures Evaluate(After(t, m), key) == Evaluate(t, key) <==> Harmless(t, key, m)
  {
    SurvivorMeaning(t, key, m);
    var id := if m.UpsertGroup? then m.group.id else m.groupId;
    if Lists(t, key, id) && id !in t.groups {
      NewGroupShows(t, key, m.group);
    } else {
      assert !Lists(t, key, id);
      UnlistedGroup(t, key, m, id);
    }
  }

  lemma UnlistedGroup(t: Tables, key: IdentityKey, m: Mutation, id: Id)
    requires Resolvable(t, key) && !Lists(t, key, id)
    requires (m.UpsertGroup? && m.group.id == id) || (m.DeleteGroup? && m.groupId == id)
    ensures Resolvable(After(t, m), key) && Evaluate(After(t, m), key) == Evaluate(t, key)
  {
    SameProfileInputs(t, After(t, m), key);
    SameEntitlements(t, After(t, m), key);
  }

  lemma OrgSurvivor(t: Tables, key: IdentityKey, o: Org)
    requires Resolvable(t, key) && Survives(t, key, UpsertOrg(o))
    ensures Resolvable(After(t, UpsertOrg(o)), key)
    ensures Evaluate(After(t, UpsertOrg(o)), key) == Evaluate(t, key) <==> Harmless(t, key, UpsertOrg(o))
  {
    var u := After(t, UpsertOrg(o));
    SurvivorMeaning(t, key, UpsertOrg(o));
    if Harmless(t, key, UpsertOrg(o)) {
      SameProfileInputs(t, u, key);
      SameEntitlementRows(t, u, key);
    } else {
      assert Evaluate(u, key).orgId == Some(o.id) && Evaluate(t, key).orgId == None;
    }
  }

  lemma OtherSurvivor(t: Tables, key: IdentityKey, m: Mutation)
    requires Resolvable(t, key) && Survives(t, key, m)
    requires m.UpsertUser? || m.UpsertMembership? || (m.RemoveMembership? && m.membershipId in t.memberships)
    ensures Resolvable(After(t, m), key)
    ensures Evaluate(After(t, m), key) == Evaluate(t, key)
  {
    SurvivorMeaning(t, key, m);
    SameProfileInputs(t, After(t, m), key);
    SameEntitlements(t, After(t, m), key);
  }

  // An entry that a mutation does not purge stays right exactly when the mutation is harmless.
  lemma SurvivorExact(t: Tables, key: IdentityKey, m: Mutation)
    requires Resolvable(t, key) && Survives(t, key, m)
    ensures Resolvable(After(t, m), key)
    ensures Evaluate(After(t, m), key) == Evaluate(t, key) <==> Harmless(t, key, m)
  {
    if Notice(t, m).None? {
      assert After(t, m) == t;
    } else {
      match m
      case UpsertOrg(o) => OrgSurvivor(t, key, o);
      case UpsertGroup(_) => GroupSurvivor(t, key, m);
      case DeleteGroup(_) => GroupSurvivor(t, key, m);
      case UpsertEntitlement(_) => EntitlementSurvivor(t, key, m);
      case RemoveEntitlement(_) => EntitlementSurvivor(t, key, m);
      case UpsertUser(_) => OtherSurvivor(t, key, m);
      case UpsertMembership(_) => OtherSurvivor(t, key, m);
      case RemoveMembership(_) => OtherSurvivor(t, key, m);
    }
  }

  lemma PurgedHarmless(t: Tables, key: IdentityKey, m: Mutation)
    requires Resolvable(t, key) && !Survives(t, key, m)
    ensures Harmless(t, key, m)
  {
    if m.UpsertEntitlement? {
      SubjectTags(t, key, m.entitlement.subject);
    }
  }

  lemma PurgedKeys(t: Tables, entries: IdentityEntries, key: IdentityKey, m: Mutation)
    requires key in entries && Right(t, key, entries[key])
    ensures key in Purged(entries, Notice(t, m)) <==> Survives(t, key, m)
  {
    RightTags(t, key);
    if Notice(t, m).Some? {
      NoticeHasTags(t, m);
      var tags := IdentityTags(Notice(t, m).value);
      assert entries[key].tags !! tags <==> forall tag :: tag in tags ==> !Carries(t, key, tag);
    }
  }

  // Which entries a mutation purges, mutation by mutation.
  ghost predicate Affected(t: Tables, key: IdentityKey, m: Mutation) {
    match m
    case UpsertUser(u) => key.userId == u.id
    case UpsertOrg(o) => OrgIdOf(t, key) == Some(o.id)
    case UpsertGroup(g) => OrgIdOf(t, key) == Some(g.orgId) || (Lists(t, key, g.id) && g.id in t.groups)
    case DeleteGroup(id) => id in t.groups && (OrgIdOf(t, key) == Some(t.groups[id].orgId) || Lists(t, key, id))
    case UpsertMembership(x) => Concerns(t, key, x)
    case RemoveMembership(id) => id in t.memberships && Concerns(t, key, t.memberships[id])
    case UpsertEntitlement(e) => e.subject in SubjectsOf(t, key)
    case RemoveEntitlement(id) => id in t.entitlements && t.entitlements[id].subject in SubjectsOf(t, key)
  }

  // The membership record has the user, the organisation, the membership or a group of the key.
  ghost predicate Concerns(t: Tables, key: IdentityKey, x: Membership) {
    || key.userId == x.userId || OrgIdOf(t, key) == Some(x.orgId) || key.membershipId == Some(x.id)
    || exists id :: id in x.groupIds && id in t.groups && Lists(t, key, id)
  }

  // The context names the user, the organisation, the membership or a stored listed group of the key.
  ghost predicate Reaches(t: Tables, key: IdentityKey, c: Context) {
    || c.userId == Some(key.userId)
    || (c.orgId.Some? && OrgIdOf(t, key) == c.orgId)
    || (c.membershipId.Some? && key.membershipId == c.membershipId)
    || exists id :: id in c.groupIds && id in t.groups && Lists(t, key, id)
  }

  lemma SurvivesExactly(t: Tables, key: IdentityKey, m: Mutation)
    ensures Survives(t, key, m) <==> !Affected(t, key, m)
  {
    NoticeReaches(t, key, m);
    if Notice(t, m).Some? {
      TagsCarried(t, key, Notice(t, m).value);
    }
  }

  lemma NoticeReaches(t: Tables, key: IdentityKey, m: Mutation)
    ensures (Notice(t, m).Some? && Reaches(t, key, Notice(t, m).value)) <==> Affected(t, key, m)
  {
    match m
    case UpsertEntitlement(e) => SubjectReaches(t, key, e.subject);
    case RemoveEntitlement(id) =>
      if id in t.entitlements {
        SubjectReaches(t, key, t.entitlements[id].subject);
      }
    case _ =>
  }

  lemma SubjectReaches(t: Tables, key: IdentityKey, s: Subject)
    ensures Reaches(t, key, SubjectContext(s)) <==> s in SubjectsOf(t, key)
  {
    assert s == Subject(s.kind, s.id);
  }

  lemma TagsCarried(t: Tables, key: IdentityKey, c: Context)
    ensures (exists tag :: tag in IdentityTags(c) && Carries(t, key, tag)) <==> Reaches(t, key, c)
  {
    IdentityTagsMeaning(c);
    if c.userId == Some(key.userId) {
      assert IdentityUser(key.userId) in IdentityTags(c);
    }
    if c.orgId.Some? && OrgIdOf(t, key) == c.orgId {
      assert IdentityOrg(c.orgId.value) in IdentityTags(c);
    }
    if c.membershipId.Some? && key.membershipId == c.membershipId {
      assert IdentityMembership(c.membershipId.value) in IdentityTags(c);
    }
    if id :| id in c.groupIds && id in t.groups && Lists(t, key, id) {
      assert IdentityGroup(id) in IdentityTags(c);
    }
  }

  // No mutation clears the whole identity cache.
  lemma NoticeHasTags(t: Tables, m: Mutation)
    requires Notice(t, m).Some?
    ensures IdentityTags(Notice(t, m).value) != {}
  {
    var c := Notice(t, m).value;
    var tag := if c.userId.Some? then IdentityUser(c.userId.value)
               else if c.orgId.Some? then IdentityOrg(c.orgId.value)
               else IdentityMembership(c.membershipId.value);
    assert tag in IdentityTags(c);
  }

  lemma EntryExact(t: Tables, entries: IdentityEntries, key: IdentityKey, m: Mutation)
    requires key in entries && Right(t, key, entries[key])
    ensures key in Purged(entries, Notice(t, m)) ==>
              (Right(After(t, m), key, entries[key]) <==> Harmless(t, key, m))
    ensures key !in Purged(entries, Notice(t, m)) ==> Harmless(t, key, m)
  {
    PurgedKeys(t, entries, key, m);
    if Survives(t, key, m) {
      SurvivorExact(t, key, m);
    } else {
      PurgedHarmless(t, key, m);
    }
  }

  lemma HarmlessThenCoherent(t: Tables, entries: IdentityEntries, m: Mutation)
    requires Coherent(t, entries) && forall key :: key in entries ==> Harmless(t, key, m)
    ensures Coherent(After(t, m), Purged(entries, Notice(t, m)))
  {
    forall key | key in Purged(entries, Notice(t, m))
      ensures Right(After(t, m), key, Purged(entries, Notice(t, m))[key])
    {
      PurgedKeeps(entries, Notice(t, m), key);
      EntryExact(t, entries, key, m);
    }
  }

  lemma CoherentThenHarmless(t: Tables, entries: IdentityEntries, m: Mutation, key: IdentityKey)
    requires key in entries && Right(t, key, entries[key])
    ensures Coherent(After(t, m), Purged(entries, Notice(t, m))) ==> Harmless(t, key, m)
  {
    EntryExact(t, entries, key, m);
    if key in Purged(entries, Notice(t, m)) {
      PurgedKeeps(entries, Notice(t, m), key);
    }
  }

  lemma PurgedKeeps(entries: IdentityEntries, notice: Option<Context>, key: IdentityKey)
    requires key in Purged(entries, notice)
    ensures key in entries && Purged(entries, notice)[key] == entries[key]
  {
  }

  // The main step. Whatever is cached, a mutation and its purge keep the cache right exactly when
  // the mutation is harmless to every cached key.
  lemma MutationExact(t: Tables, entries: IdentityEntries, m: Mutation)
    requires Coherent(t, entries)
    ensures Coherent(After(t, m), Purged(entries, Notice(t, m))) <==>
            forall key :: key in entries ==> Harmless(t, key, m)
  {
    if Coherent(After(t, m), Purged(entries, Notice(t, m))) {
      forall key | key in entries ensures Harmless(t, key, m) {
        assert Right(t, key, entries[key]);
        CoherentThenHarmless(t, entries, m, key);
      }
    }
    if forall key :: key in entries ==> Harmless(t, key, m) {
      HarmlessThenCoherent(t, entries, m);
    }
  }
}
