/** The Postgres profile and entitlement stores over one database and one pair of caches. */
module ProfileRepository {
  import opened Prelude
  import opened Contracts
  import opened Ordering
  import opened MemoryCache
  import opened CacheInvalidation
  import opened ProfileTables
  import opened IdentityCoherence
  import opened IdentityRuns

  class Database {
    var tables: Tables

    constructor (tables: Tables)
      ensures this.tables == tables
    {
      this.tables := tables;
    }

    method SelectMemberships(userId: Id, orgId: Option<Id>) returns (rows: seq<Membership>)
      ensures EarliestMembership(tables, userId, orgId) == if rows == [] then None else Some(rows[0])
    {
      MembershipOrder();
      rows := SortRows(MembershipLess, MembershipRows(tables, userId, orgId));
    }

    method SelectEntitlements(subjects: set<Subject>) returns (rows: seq<Entitlement>)
      ensures rows == EntitlementListing(tables, subjects)
    {
      EntitlementOrder();
      rows := SortRows(EntitlementLess, EntitlementRows(tables, subjects));
    }

    method SelectGroups(ids: seq<Id>) returns (rows: seq<Group>)
      ensures rows == GroupsByIds(tables, ids)
    {
      rows := [];
      for i := 0 to |ids|
        invariant rows == GroupsByIds(tables, ids[..i])
      {
        assert Front(ids[..i + 1]) == ids[..i] && Last(ids[..i + 1]) == ids[i];
        if ids[i] in tables.groups {
          rows := rows + [tables.groups[ids[i]]];
        }
      }
      assert ids[..|ids|] == ids;
    }
  }

  datatype Refused = NotUnique

  class PostgresStores<D> {
    const db: Database
    const invalidator: CacheInvalidator<IdentityKey, D>
    const identityCacheTtlSeconds: Option<int>

    constructor (db: Database, invalidator: CacheInvalidator<IdentityKey, D>, ttlSeconds: Option<int>)
      requires invalidator.Valid() && invalidator.decisionCan == FULL && invalidator.identityCan == FULL
      ensures Valid() && this.db == db && this.invalidator == invalidator && identityCacheTtlSeconds == ttlSeconds
    {
      this.db, this.invalidator, this.identityCacheTtlSeconds := db, invalidator, ttlSeconds;
    }

    ghost predicate Valid()
      reads invalidator.decisionCache, invalidator.identityCache
    {
      invalidator.Valid() && invalidator.decisionCan == FULL && invalidator.identityCan == FULL
    }

    // The effect of a mutation on the rows and on both caches.
    twostate predicate Mutated(m: Mutation)
      reads db, invalidator.decisionCache, invalidator.identityCache
    {
      var notice := Notice(old(db.tables), m);
      && db.tables == After(old(db.tables), m)
      && (invalidator.identityCache != null ==>
            invalidator.identityCache.entries == Purged(old(invalidator.identityCache.entries), notice)
            && invalidator.identityCache.nextSerial == old(invalidator.identityCache.nextSerial))
      && (invalidator.decisionCache != null ==>
            invalidator.decisionCache.entries ==
            if notice.None? then old(invalidator.decisionCache.entries)
            else Invalidated(old(invalidator.decisionCache.entries), DecisionTags(notice.value)))
    }

    // The mutation, unless the tables refuse it, in which case nothing changes.
    twostate predicate TriedMutation(m: Mutation)
      reads db, invalidator.decisionCache, invalidator.identityCache
    {
      if !Conflicts(old(db.tables), m) then Mutated(m)
      else
        && db.tables == old(db.tables)
        && (invalidator.identityCache != null ==>
              && invalidator.identityCache.entries == old(invalidator.identityCache.entries)
              && invalidator.identityCache.nextSerial == old(invalidator.identityCache.nextSerial))
        && (invalidator.decisionCache != null ==>
              invalidator.decisionCache.entries == old(invalidator.decisionCache.entries))
    }

    method UpsertUserProfile(profile: User) returns (record: User)
      requires Valid()
      modifies db, invalidator.decisionCache, invalidator.identityCache
      ensures Valid() && record == profile && Mutated(UpsertUser(profile))
    {
      db.tables := db.tables.(users := db.tables.users[profile.id := profile]);
      record := db.tables.users[profile.id];
      invalidator.Invalidate(Context(Some(record.id), None, None, []));
    }

    method UpsertOrgProfile(profile: Org) returns (r: Result<Org, Refused>)
      requires Valid()
      modifies db, invalidator.decisionCache, invalidator.identityCache
      ensures Valid() && TriedMutation(UpsertOrg(profile))
      ensures r == if Conflicts(old(db.tables), UpsertOrg(profile)) then Err(NotUnique) else Ok(profile)
    {
      if exists id | id in db.tables.orgs :: id != profile.id && db.tables.orgs[id].slug == profile.slug {
        return Err(NotUnique);
      }
      db.tables := db.tables.(orgs := db.tables.orgs[profile.id := profile]);
      var record := db.tables.orgs[profile.id];
      invalidator.Invalidate(Context(None, Some(record.id), None, []));
      return Ok(record);
    }

    method UpsertGroup(group: Group) returns (record: Group)
      requires Valid()
      modifies db, invalidator.decisionCache, invalidator.identityCache
      ensures Valid() && record == group && Mutated(Mutation.UpsertGroup(group))
    {
      db.tables := db.tables.(groups := db.tables.groups[group.id := group]);
      record := db.tables.groups[group.id];
      invalidator.Invalidate(Context(None, Some(record.orgId), None, [record.id]));
    }

    method DeleteGroup(groupId: Id)
      requires Valid()
      modifies db, invalidator.decisionCache, invalidator.identityCache
      ensures Valid() && Mutated(Mutation.DeleteGroup(groupId))
    {
      if groupId !in db.tables.groups {
        assert db.tables.groups - {groupId} == db.tables.groups;
        return;
      }
      var record := db.tables.groups[groupId];
      db.tables := db.tables.(groups := db.tables.groups - {groupId});
      invalidator.Invalidate(Context(None, Some(record.orgId), None, [record.id]));
    }

    method UpsertMembership(membership: Membership) returns (record: Membership)
      requires Valid()
      modifies db, invalidator.decisionCache, invalidator.identityCache
      ensures Valid() && record == membership && Mutated(Mutation.UpsertMembership(membership))
    {
      db.tables := db.tables.(memberships := db.tables.memberships[membership.id := membership]);
      record := db.tables.memberships[membership.id];
      invalidator.Invalidate(Context(Some(record.userId), Some(record.orgId), Some(record.id), record.groupIds));
    }

    method RemoveMembership(membershipId: Id)
      requires Valid()
      modifies db, invalidator.decisionCache, invalidator.identityCache
      ensures Valid() && Mutated(Mutation.RemoveMembership(membershipId))
    {
      if membershipId !in db.tables.memberships {
        assert db.tables.memberships - {membershipId} == db.tables.memberships;
        return;
      }
      var record := db.tables.memberships[membershipId];
      db.tables := db.tables.(memberships := db.tables.memberships - {membershipId});
      invalidator.Invalidate(Context(Some(record.userId), Some(record.orgId), Some(record.id), record.groupIds));
    }

    method UpsertEntitlement(entitlement: Entitlement) returns (r: Result<Entitlement, Refused>)
      requires Valid()
      modifies db, invalidator.decisionCache, invalidator.identityCache
      ensures Valid() && TriedMutation(Mutation.UpsertEntitlement(entitlement))
      ensures r == if Conflicts(old(db.tables), Mutation.UpsertEntitlement(entitlement)) then Err(NotUnique)
                   else Ok(entitlement)
    {
      if exists id | id in db.tables.entitlements ::
           id != entitlement.id && SameGrant(db.tables.entitlements[id], entitlement)
      {
        return Err(NotUnique);
      }
      db.tables := db.tables.(entitlements := db.tables.entitlements[entitlement.id := entitlement]);
      var record := db.tables.entitlements[entitlement.id];
      InvalidateEntitlement(record);
      return Ok(record);
    }

    method RemoveEntitlement(id: Id)
      requires Valid()
      modifies db, invalidator.decisionCache, invalidator.identityCache
      ensures Valid() && Mutated(Mutation.RemoveEntitlement(id))
    {
      if id !in db.tables.entitlements {
        assert db.tables.entitlements - {id} == db.tables.entitlements;
        return;
      }
      var record := db.tables.entitlements[id];
      db.tables := db.tables.(entitlements := db.tables.entitlements - {id});
      InvalidateEntitlement(record);
    }

    method InvalidateEntitlement(record: Entitlement)
      requires Valid()
      modifies invalidator.decisionCache, invalidator.identityCache
      ensures Valid()
      ensures invalidator.identityCache != null ==>
                && invalidator.identityCache.entries ==
                   Purged(old(invalidator.identityCache.entries), Some(SubjectContext(record.subject)))
                && invalidator.identityCache.nextSerial == old(invalidator.identityCache.nextSerial)
      ensures invalidator.decisionCache != null ==>
                invalidator.decisionCache.entries ==
                Invalidated(old(invalidator.decisionCache.entries), DecisionTags(SubjectContext(record.subject)))
    {
      match record.subject.kind
      case UserSubject => invalidator.Invalidate(Context(Some(record.subject.id), None, None, []));
      case OrgSubject => invalidator.Invalidate(Context(None, Some(record.subject.id), None, []));
      case MembershipSubject => invalidator.Invalidate(Context(None, None, Some(record.subject.id), []));
    }

    method ResolveMembership(q: IdentityRequest) returns (r: Result<Option<Membership>, IdentityError>)
      ensures r == ProfileTables.ResolveMembership(db.tables, q)
    {
      if q.membershipId.Some? {
        var id := q.membershipId.value;
        if id !in db.tables.memberships {
          return Err(MembershipNotFound(id));
        }
        var membership := db.tables.memberships[id];
        if membership.userId != q.userId {
          return Err(MembershipOfOtherUser(id));
        }
        if q.orgId.Some? && membership.orgId != q.orgId.value {
          return Err(MembershipOfOtherOrg(id));
        }
        return Ok(Some(membership));
      }
      var rows := db.SelectMemberships(q.userId, q.orgId);
      return Ok(if rows == [] then None else Some(rows[0]));
    }

    method CollectEntitlements(key: IdentityKey, orgId: Option<Id>) returns (names: seq<string>)
      requires orgId == OrgIdOf(db.tables, key)
      ensures names == EntitlementsOf(db.tables, key)
    {
      var subjects := [Subject(UserSubject, key.userId)];
      if orgId.Some? {
        subjects := subjects + [Subject(OrgSubject, orgId.value)];
      }
      if key.membershipId.Some? {
        subjects := subjects + [Subject(MembershipSubject, key.membershipId.value)];
      }
      assert Elements(subjects) == SubjectsOf(db.tables, key);
      var rows := db.SelectEntitlements(Elements(subjects));
      names := DedupeStrings(Names(rows));
    }

    // The identity of a key from the rows read for it.
    method Assemble(key: IdentityKey, user: User, org: Option<Org>, membership: Option<Membership>)
      returns (identity: EffectiveIdentity)
      requires Resolvable(db.tables, key) && user == db.tables.users[key.userId]
      requires org == OrgOf(db.tables, key) && membership == MembershipOf(db.tables, key)
      ensures identity == Evaluate(db.tables, key)
    {
      var groups: seq<Group> := [];
      if key.includeGroups && membership.Some? && |membership.value.groupIds| > 0 {
        groups := db.SelectGroups(membership.value.groupIds);
      }
      assert groups == GroupsOf(db.tables, key);
      var orgId := if org.Some? then Some(org.value.id) else None;
      var labels := MergeLabelSets(
        [Some(user.labels), if org.Some? then Some(org.value.labels) else None,
         if membership.Some? then Some(membership.value.labelsDelta) else None]
        + GroupLabels(groups));
      var entitlements := CollectEntitlements(key, orgId);
      var groupIds := DedupeStrings(GroupIds(groups));
      identity := EffectiveIdentity(user.id, orgId, groupIds, labels,
                                    if membership.Some? then [membership.value.role] else [], entitlements, []);
    }

    method CacheIdentity(key: IdentityKey, identity: EffectiveIdentity, now: int)
      requires Valid()
      modifies invalidator.identityCache
      ensures Valid()
      ensures invalidator.identityCache != null ==>
                invalidator.identityCache.entries ==
                old(invalidator.identityCache.entries)
                  [key := Entry(identity, Expiry(identityCacheTtlSeconds, now), TagsOf(key, identity),
                                old(invalidator.identityCache.nextSerial))]
    {
      if invalidator.identityCache == null {
        return;
      }
      var tags := {IdentityUser(key.userId)};
      if identity.orgId.Some? {
        tags := tags + {IdentityOrg(identity.orgId.value)};
      }
      if key.membershipId.Some? {
        tags := tags + {IdentityMembership(key.membershipId.value)};
      }
      for i := 0 to |identity.groups|
        invariant tags == TagsOf(key, identity.(groups := identity.groups[..i]))
      {
        tags := tags + {IdentityGroup(identity.groups[i])};
      }
      assert identity.groups[..|identity.groups|] == identity.groups;
      invalidator.identityCache.Set(key, identity, identityCacheTtlSeconds, tags, now);
    }

    method Compute(key: IdentityKey, user: User, membership: Option<Membership>, q: IdentityRequest)
      returns (r: IdentityAnswer)
      requires Resolve(db.tables, q) == Ok(key)
      requires user == db.tables.users[key.userId] && membership == MembershipOf(db.tables, key)
      ensures r == PlainAnswer(db.tables, q)
    {
      var org := if key.orgId.Some? then Get(db.tables.orgs, key.orgId.value) else None;
      if q.orgId.Some? && org.None? {
        return Err(OrgNotFound(q.orgId.value));
      }
      var identity := Assemble(key, user, org, membership);
      return Ok(identity);
    }

    method ComputeEffectiveIdentity(q: IdentityRequest, now: int) returns (r: IdentityAnswer)
      requires Valid()
      modifies invalidator.identityCache
      ensures Valid()
      ensures invalidator.identityCache == null ==> r == PlainAnswer(db.tables, q)
      ensures invalidator.identityCache != null ==>
                && r == CachedAnswer(db.tables, old(invalidator.identityCache.entries), q, now)
                && invalidator.identityCache.entries ==
                   AfterRead(db.tables, old(invalidator.identityCache.entries), q, now,
                             identityCacheTtlSeconds, old(invalidator.identityCache.nextSerial))
    {
      if q.userId !in db.tables.users {
        return Err(UserNotFound(q.userId));
      }
      var user := db.tables.users[q.userId];
      var resolved := ResolveMembership(q);
      if resolved.Err? {
        return Err(resolved.error);
      }
      var key := KeyFor(user, resolved.value, q);
      assert Resolve(db.tables, q) == Ok(key);
      r := ReadThrough(key, user, resolved.value, q, now);
      if invalidator.identityCache != null {
        ReadResolved(db.tables, old(invalidator.identityCache.entries), q, now, identityCacheTtlSeconds,
                     old(invalidator.identityCache.nextSerial), key);
      }
    }

    // Through the cache, once the user and the membership are known.
    method ReadThrough(key: IdentityKey, user: User, membership: Option<Membership>, q: IdentityRequest, now: int)
      returns (r: IdentityAnswer)
      requires Valid() && Resolve(db.tables, q) == Ok(key)
      requires user == db.tables.users[key.userId] && membership == MembershipOf(db.tables, key)
      modifies invalidator.identityCache
      ensures Valid()
      ensures invalidator.identityCache == null ==> r == PlainAnswer(db.tables, q)
      ensures invalidator.identityCache != null ==>
                var entries := old(invalidator.identityCache.entries);
                var serial := old(invalidator.identityCache.nextSerial);
                var cached := Lookup(entries, key, now);
                && r == (if cached.Some? then Ok(cached.value) else PlainAnswer(db.tables, q))
                && invalidator.identityCache.entries ==
                   if cached.Some? then entries
                   else if r.Err? then Without(entries, key)
                   else entries[key := Entry(r.value, Expiry(identityCacheTtlSeconds, now), TagsOf(key, r.value),
                                             serial)]
    {
      var cached := CachedIdentity(key, now);
      if cached.Some? {
        return Ok(cached.value);
      }
      r := ComputeAndCache(key, user, membership, q, now);
    }

    method CachedIdentity(key: IdentityKey, now: int) returns (r: Option<EffectiveIdentity>)
      requires Valid()
      modifies invalidator.identityCache
      ensures Valid()
      ensures invalidator.identityCache == null ==> r == None
      ensures invalidator.identityCache != null ==>
                && r == Lookup(old(invalidator.identityCache.entries), key, now)
                && invalidator.identityCache.nextSerial == old(invalidator.identityCache.nextSerial)
                && invalidator.identityCache.entries ==
                   if r.Some? then old(invalidator.identityCache.entries)
                   else Without(old(invalidator.identityCache.entries), key)
    {
      if invalidator.identityCache == null {
        return None;
      }
      r := invalidator.identityCache.Get(key, now);
      assert key !in old(invalidator.identityCache.entries) ==>
               Without(old(invalidator.identityCache.entries), key) == old(invalidator.identityCache.entries);
    }

    method ComputeAndCache(key: IdentityKey, user: User, membership: Option<Membership>, q: IdentityRequest, now: int)
      returns (r: IdentityAnswer)
      requires Valid() && Resolve(db.tables, q) == Ok(key)
      requires user == db.tables.users[key.userId] && membership == MembershipOf(db.tables, key)
      modifies invalidator.identityCache
      ensures Valid() && r == PlainAnswer(db.tables, q)
      ensures invalidator.identityCache != null ==>
                invalidator.identityCache.entries ==
                (if r.Err? then old(invalidator.identityCache.entries) else
                   old(invalidator.identityCache.entries)
                     [key := Entry(r.value, Expiry(identityCacheTtlSeconds, now), TagsOf(key, r.value),
                                   old(invalidator.identityCache.nextSerial))])
    {
      r := Compute(key, user, membership, q);
      if r.Ok? {
        CacheIdentity(key, r.value, now);
      }
    }

    method Mutate(m: Mutation)
      requires Valid()
      modifies db, invalidator.decisionCache, invalidator.identityCache
      ensures Valid() && TriedMutation(m)
    {
      match m
      case UpsertUser(user) => var _ := UpsertUserProfile(user);
      case UpsertOrg(org) => var _ := UpsertOrgProfile(org);
      case UpsertGroup(group) => var _ := UpsertGroup(group);
      case DeleteGroup(id) => DeleteGroup(id);
      case UpsertMembership(membership) => var _ := UpsertMembership(membership);
      case RemoveMembership(id) => RemoveMembership(id);
      case UpsertEntitlement(entitlement) => var _ := UpsertEntitlement(entitlement);
      case RemoveEntitlement(id) => RemoveEntitlement(id);
    }

    ghost predicate CacheRight()
      reads db, invalidator.decisionCache, invalidator.identityCache
    {
      && Valid()
      && invalidator.identityCache != null
      && Coherent(db.tables, invalidator.identityCache.entries)
      && Linked(db.tables, invalidator.identityCache.entries)
    }

    method MutateRightly(m: Mutation)
      requires CacheRight() && Permitted(db.tables, Change(m))
      modifies db, invalidator.decisionCache, invalidator.identityCache
      ensures CacheRight() && db.tables == Tried(old(db.tables), m)
    {
      ghost var tables, entries := db.tables, invalidator.identityCache.entries;
      Mutate(m);
      if !Conflicts(tables, m) {
        PermittedHarmless(tables, entries, m);
        MutationExact(tables, entries, m);
        ChangeKeepsLinks(tables, entries, m);
      }
    }

    method AnswerRightly(q: IdentityRequest, now: int) returns (answer: IdentityAnswer)
      requires CacheRight() && Permitted(db.tables, Ask(q, now))
      modifies invalidator.identityCache
      ensures CacheRight() && answer == PlainAnswer(db.tables, q)
    {
      ghost var entries, serial := invalidator.identityCache.entries, invalidator.identityCache.nextSerial;
      answer := ComputeEffectiveIdentity(q, now);
      ReadExact(db.tables, entries, q, now);
      ReadKeepsCoherence(db.tables, entries, q, now, identityCacheTtlSeconds, serial);
      ReadKeepsLinks(db.tables, entries, q, now, identityCacheTtlSeconds, serial);
    }

    method EvictRightly(keys: set<IdentityKey>)
      requires CacheRight()
      modifies invalidator.identityCache
      ensures CacheRight()
    {
      ghost var entries := invalidator.identityCache.entries;
      EvictAll(invalidator.identityCache, keys);
      StepKeeps(World(db.tables, entries, 0), Event.Evict(keys), identityCacheTtlSeconds);
    }

    // The stores at work: mutations, requests and evictions in any permitted order. Every request
    // is answered as if there were no cache.
    method Serve(run: seq<Event>) returns (answers: seq<IdentityAnswer>)
      requires CacheRight() && AllPermitted(db.tables, run)
      modifies db, invalidator.decisionCache, invalidator.identityCache
      ensures CacheRight()
      ensures answers == PlainAnswers(old(db.tables), run)
    {
      answers := [];
      for i := 0 to |run|
        invariant CacheRight()
        invariant AllPermitted(db.tables, run[i..])
        invariant PlainAnswers(old(db.tables), run) == answers + PlainAnswers(db.tables, run[i..])
      {
        assert run[i..][0] == run[i] && run[i..][1..] == run[i + 1..];
        match run[i] {
          case Change(m) => MutateRightly(m);
          case Ask(q, now) =>
            var answer := AnswerRightly(q, now);
            answers := answers + [answer];
          case Evict(keys) => EvictRightly(keys);
        }
      }
      assert run[|run|..] == [];
    }
  }

  method EvictAll(cache: MemoryCache<IdentityKey, EffectiveIdentity, IdentityTag>, keys: set<IdentityKey>)
    requires cache.Valid()
    modifies cache
    ensures cache.Valid() && cache.entries == old(cache.entries) - keys
  {
    var rest := keys;
    while rest != {}
      invariant rest <= keys && cache.Valid()
      invariant cache.entries == old(cache.entries) - (keys - rest)
      decreases rest
    {
      var key :| key in rest;
      cache.Delete(key);
      rest := rest - {key};
    }
  }
}
