/** Reading identities through the cache, and the whole-run theorem. */
module IdentityRuns {
  import opened Prelude
  import opened Contracts
  import opened Ordering
  import opened MemoryCache
  import opened CacheInvalidation
  import opened ProfileTables
  import opened IdentityCoherence

  // What a request is answered through the cache.
  ghost function CachedAnswer(t: Tables, entries: IdentityEntries, q: IdentityRequest, now: int): IdentityAnswer {
    match Resolve(t, q)
    case Err(e) => Err(e)
    case Ok(key) =>
      match Lookup(entries, key, now)
      case Some(identity) => Ok(identity)
      case None => PlainAnswer(t, q)
  }

  // What the cache holds afterwards.
  ghost function AfterRead(t: Tables, entries: IdentityEntries, q: IdentityRequest, now: int,
                           ttlSeconds: Option<int>, serial: nat): IdentityEntries
  {
    match Resolve(t, q)
    case Err(_) => entries
    case Ok(key) =>
      if Lookup(entries, key, now).Some? then entries
      else
        match PlainAnswer(t, q)
        case Err(_) => Without(entries, key)
        case Ok(identity) =>
          entries[key := Entry(identity, Expiry(ttlSeconds, now), TagsOf(key, identity), serial)]
  }

  // What both come to, once the request is resolved.
  lemma ReadResolved(t: Tables, entries: IdentityEntries, q: IdentityRequest, now: int, ttlSeconds: Option<int>,
                     serial: nat, key: IdentityKey)
    requires Resolve(t, q) == Ok(key)
    ensures var cached, plain := Lookup(entries, key, now), PlainAnswer(t, q);
            && CachedAnswer(t, entries, q, now) == (if cached.Some? then Ok(cached.value) else plain)
            && AfterRead(t, entries, q, now, ttlSeconds, serial) ==
               if cached.Some? then entries
               else if plain.Err? then Without(entries, key)
               else entries[key := Entry(plain.value, Expiry(ttlSeconds, now), TagsOf(key, plain.value), serial)]
  {
  }

  // On a coherent cache, the answer through the cache differs from the plain one exactly when an
  // identity is cached for an explicitly requested organisation that is not stored.
  lemma ReadExact(t: Tables, entries: IdentityEntries, q: IdentityRequest, now: int)
    requires Coherent(t, entries)
    ensures CachedAnswer(t, entries, q, now) == PlainAnswer(t, q) <==>
            !(&& q.orgId.Some? && q.orgId.value !in t.orgs
              && Resolve(t, q).Ok? && Lookup(entries, Resolve(t, q).value, now).Some?)
  {
    if Resolve(t, q).Ok? && Lookup(entries, Resolve(t, q).value, now).Some? {
      assert Right(t, Resolve(t, q).value, entries[Resolve(t, q).value]);
    }
  }

  // What a read caches is right; the other entries are as before.
  lemma AfterReadEntry(t: Tables, entries: IdentityEntries, q: IdentityRequest, now: int,
                       ttlSeconds: Option<int>, serial: nat, key: IdentityKey)
    requires key in AfterRead(t, entries, q, now, ttlSeconds, serial)
    ensures var after := AfterRead(t, entries, q, now, ttlSeconds, serial);
            (key in entries && after[key] == entries[key]) || Right(t, key, after[key])
  {
  }

  lemma ReadKeepsCoherence(t: Tables, entries: IdentityEntries, q: IdentityRequest, now: int,
                           ttlSeconds: Option<int>, serial: nat)
    requires Coherent(t, entries)
    ensures Coherent(t, AfterRead(t, entries, q, now, ttlSeconds, serial))
  {
    var after := AfterRead(t, entries, q, now, ttlSeconds, serial);
    forall key | key in after ensures Right(t, key, after[key]) {
      AfterReadEntry(t, entries, q, now, ttlSeconds, serial, key);
      if key in entries && after[key] == entries[key] {
        assert Right(t, key, entries[key]);
      }
    }
  }

  // ------------------------------------------------------------------------ runs

  // Evictions stand for everything the cache drops on its own: timers, and reads of expired keys.
  datatype Event =
    | Change(m: Mutation)
    | Ask(q: IdentityRequest, now: int)
    | Evict(keys: set<IdentityKey>)

  datatype World = World(tables: Tables, entries: IdentityEntries, serial: nat)

  ghost function Step(w: World, e: Event, ttlSeconds: Option<int>): World {
    match e
    case Change(m) =>
      if Conflicts(w.tables, m) then w
      else World(After(w.tables, m), Purged(w.entries, Notice(w.tables, m)), w.serial)
    case Ask(q, now) =>
      w.(entries := AfterRead(w.tables, w.entries, q, now, ttlSeconds, w.serial), serial := w.serial + 1)
    case Evict(keys) => w.(entries := w.entries - keys)
  }

  ghost function PlainStep(t: Tables, e: Event): Tables {
    if e.Change? then Tried(t, e.m) else t
  }

  ghost function Answers(w: World, run: seq<Event>, ttlSeconds: Option<int>): seq<IdentityAnswer>
    decreases |run|
  {
    if run == [] then []
    else
      (if run[0].Ask? then [CachedAnswer(w.tables, w.entries, run[0].q, run[0].now)] else []) +
      Answers(Step(w, run[0], ttlSeconds), run[1..], ttlSeconds)
  }

  ghost function PlainAnswers(t: Tables, run: seq<Event>): seq<IdentityAnswer>
    decreases |run|
  {
    if run == [] then []
    else
      (if run[0].Ask? then [PlainAnswer(t, run[0].q)] else []) +
      PlainAnswers(PlainStep(t, run[0]), run[1..])
  }

  // The three conditions on callers, as guards on the tables alone. An implied organisation is
  // stored by the time it is used; a group that memberships list already is created in their
  // organisation; an entitlement keeps its subject.
  ghost predicate Permitted(t: Tables, e: Event) {
    match e
    case Ask(q, _) =>
      Resolve(t, q).Ok? && q.orgId.None? && Resolve(t, q).value.orgId.Some? ==>
        Resolve(t, q).value.orgId.value in t.orgs
    case Change(UpsertGroup(g)) =>
      g.id in t.groups ||
      forall id :: id in t.memberships && g.id in t.memberships[id].groupIds ==> t.memberships[id].orgId == g.orgId
    case Change(UpsertEntitlement(x)) =>
      Conflicts(t, UpsertEntitlement(x)) || (x.id in t.entitlements ==> t.entitlements[x.id].subject == x.subject)
    case _ => true
  }

  ghost predicate AllPermitted(t: Tables, run: seq<Event>)
    decreases |run|
  {
    run == [] || (Permitted(t, run[0]) && AllPermitted(PlainStep(t, run[0]), run[1..]))
  }

  // What permitted runs keep of the cached keys, beside coherence.
  ghost predicate LinkedKey(t: Tables, key: IdentityKey) {
    && (key.orgId.Some? ==> key.orgId.value in t.orgs)
    && (key.membershipId.Some? ==>
          MembershipOf(t, key).Some? && key.orgId == Some(MembershipOf(t, key).value.orgId))
  }

  ghost predicate Linked(t: Tables, entries: IdentityEntries) {
    forall key :: key in entries ==> LinkedKey(t, key)
  }

  lemma PermittedHarmless(t: Tables, entries: IdentityEntries, m: Mutation)
    requires Linked(t, entries) && Permitted(t, Change(m)) && !Conflicts(t, m)
    ensures forall key :: key in entries ==> Harmless(t, key, m)
  {
    forall key | key in entries ensures Harmless(t, key, m) {
      PermittedHarmlessKey(t, key, m);
    }
  }

  lemma PermittedHarmlessKey(t: Tables, key: IdentityKey, m: Mutation)
    requires LinkedKey(t, key) && Permitted(t, Change(m)) && !Conflicts(t, m)
    ensures Harmless(t, key, m)
  {
    if m.UpsertGroup? && Lists(t, key, m.group.id) && m.group.id !in t.groups {
      assert t.memberships[key.membershipId.value].orgId == m.group.orgId;
    }
  }

  lemma ChangeKeepsLinks(t: Tables, entries: IdentityEntries, m: Mutation)
    requires Coherent(t, entries) && Linked(t, entries)
    ensures Linked(After(t, m), Purged(entries, Notice(t, m)))
  {
    forall key | key in Purged(entries, Notice(t, m)) ensures LinkedKey(After(t, m), key) {
      assert Right(t, key, entries[key]);
      PurgedKeys(t, entries, key, m);
      SurvivorStaysLinked(t, key, m);
    }
  }

  lemma SurvivorStaysLinked(t: Tables, key: IdentityKey, m: Mutation)
    requires Survives(t, key, m) && LinkedKey(t, key)
    ensures LinkedKey(After(t, m), key)
  {
    if (m.UpsertMembership? || m.RemoveMembership?) && Notice(t, m).Some? {
      SurvivorMeaning(t, key, m);
    }
  }

  lemma ReadKeepsLinks(t: Tables, entries: IdentityEntries, q: IdentityRequest, now: int,
                       ttlSeconds: Option<int>, serial: nat)
    requires Linked(t, entries) && Permitted(t, Ask(q, now))
    ensures Linked(t, AfterRead(t, entries, q, now, ttlSeconds, serial))
  {
  }

  // ------------------------------------------------------------- any run, exactly

  // Coherent now and after each event.
  ghost predicate StaysCoherent(w: World, run: seq<Event>, ttlSeconds: Option<int>)
    decreases |run|
  {
    && Coherent(w.tables, w.entries)
    && (run == [] || StaysCoherent(Step(w, run[0], ttlSeconds), run[1..], ttlSeconds))
  }

  // Each mutation, unless refused, is harmless to the keys cached when it comes.
  ghost predicate StaysHarmless(w: World, run: seq<Event>, ttlSeconds: Option<int>)
    decreases |run|
  {
    run == [] || (HarmlessNow(w, run[0]) && StaysHarmless(Step(w, run[0], ttlSeconds), run[1..], ttlSeconds))
  }

  ghost predicate HarmlessNow(w: World, e: Event) {
    e.Change? && !Conflicts(w.tables, e.m) ==> forall key :: key in w.entries ==> Harmless(w.tables, key, e.m)
  }

  lemma StepCoherent(w: World, e: Event, ttlSeconds: Option<int>)
    requires Coherent(w.tables, w.entries)
    ensures var next := Step(w, e, ttlSeconds); Coherent(next.tables, next.entries) <==> HarmlessNow(w, e)
  {
    match e {
      case Change(m) => MutationExact(w.tables, w.entries, m);
      case Ask(q, now) => ReadKeepsCoherence(w.tables, w.entries, q, now, ttlSeconds, w.serial);
      case Evict(keys) =>
        assert forall key :: key in w.entries - keys ==> Right(w.tables, key, w.entries[key]);
    }
  }

  // Over every run from a coherent cache, the cache is coherent after each event exactly when each
  // mutation is harmless to the keys cached at that point.
  lemma {:induction false} RunCoherenceExact(w: World, run: seq<Event>, ttlSeconds: Option<int>)
    requires Coherent(w.tables, w.entries)
    ensures StaysCoherent(w, run, ttlSeconds) <==> StaysHarmless(w, run, ttlSeconds)
    decreases |run|
  {
    if run != [] {
      var next := Step(w, run[0], ttlSeconds);
      StepCoherent(w, run[0], ttlSeconds);
      if Coherent(next.tables, next.entries) {
        RunCoherenceExact(next, run[1..], ttlSeconds);
      }
    }
  }

  // ------------------------------------------------------------- permitted runs

  // A permitted event keeps the cache coherent and linked, and a request is answered as without it.
  lemma StepKeeps(w: World, e: Event, ttlSeconds: Option<int>)
    requires Coherent(w.tables, w.entries) && Linked(w.tables, w.entries) && Permitted(w.tables, e)
    ensures var next := Step(w, e, ttlSeconds);
            && next.tables == PlainStep(w.tables, e)
            && Coherent(next.tables, next.entries) && Linked(next.tables, next.entries)
    ensures e.Ask? ==> CachedAnswer(w.tables, w.entries, e.q, e.now) == PlainAnswer(w.tables, e.q)
  {
    match e {
      case Change(m) =>
        if !Conflicts(w.tables, m) {
          PermittedHarmless(w.tables, w.entries, m);
          MutationExact(w.tables, w.entries, m);
          ChangeKeepsLinks(w.tables, w.entries, m);
        }
      case Ask(q, now) =>
        ReadExact(w.tables, w.entries, q, now);
        if Resolve(w.tables, q).Ok? && Lookup(w.entries, Resolve(w.tables, q).value, now).Some? {
          LinkedRead(w.tables, w.entries, q, now);
        }
        ReadKeepsCoherence(w.tables, w.entries, q, now, ttlSeconds, w.serial);
        ReadKeepsLinks(w.tables, w.entries, q, now, ttlSeconds, w.serial);
      case Evict(keys) =>
        assert forall key :: key in w.entries - keys ==> Right(w.tables, key, w.entries[key]);
    }
  }

  lemma LinkedRead(t: Tables, entries: IdentityEntries, q: IdentityRequest, now: int)
    requires Linked(t, entries) && Resolve(t, q).Ok? && Lookup(entries, Resolve(t, q).value, now).Some?
    ensures q.orgId.Some? ==> q.orgId.value in t.orgs
  {
  }

  // Over every permitted run, from any coherent cache, every request is answered, with the same
  // identity or the same error, as if there were no cache.
  lemma {:induction false} CachingIsInvisible(w: World, run: seq<Event>, ttlSeconds: Option<int>)
    requires Coherent(w.tables, w.entries) && Linked(w.tables, w.entries)
    requires AllPermitted(w.tables, run)
    ensures Answers(w, run, ttlSeconds) == PlainAnswers(w.tables, run)
    decreases |run|
  {
    if run != [] {
      var next := Step(w, run[0], ttlSeconds);
      StepKeeps(w, run[0], ttlSeconds);
      CachingIsInvisible(next, run[1..], ttlSeconds);
    }
  }

  // ------------------------------------------------- where the conditions are needed

  lemma SameResolution(t: Tables, u: Tables, q: IdentityRequest)
    requires t.users == u.users && t.memberships == u.memberships
    ensures Resolve(t, q) == Resolve(u, q)
  {
    assert MembershipRows(t, q.userId, q.orgId) == MembershipRows(u, q.userId, q.orgId);
  }

  // On any coherent cache that holds an unexpired identity for the key, a harmful change shows.
  lemma HarmShows(t: Tables, entries: IdentityEntries, q: IdentityRequest, m: Mutation, now: int)
    requires Coherent(t, entries) && PlainAnswer(t, q).Ok?
    ensures var key := Resolve(t, q).value;
            key in entries && !Expired(entries[key], now) && !Harmless(t, key, m) ==>
              CachedAnswer(After(t, m), Purged(entries, Notice(t, m)), q, now) != PlainAnswer(After(t, m), q)
  {
    var key := Resolve(t, q).value;
    if key in entries && !Expired(entries[key], now) && !Harmless(t, key, m) {
      SameResolution(t, After(t, m), q);
      assert Right(t, key, entries[key]);
      HarmedEntryStays(t, entries, key, m);
      WrongEntryShows(After(t, m), Purged(entries, Notice(t, m)), q, key, now);
    }
  }

  lemma WrongEntryShows(t: Tables, entries: IdentityEntries, q: IdentityRequest, key: IdentityKey, now: int)
    requires Resolve(t, q) == Ok(key) && key in entries && !Expired(entries[key], now)
    requires entries[key].value != Evaluate(t, key)
    ensures CachedAnswer(t, entries, q, now) != PlainAnswer(t, q)
  {
    ReadResolved(t, entries, q, now, None, 0, key);
    PlainOrRefused(t, q);
  }

  lemma PlainOrRefused(t: Tables, q: IdentityRequest)
    requires Resolve(t, q).Ok?
    ensures PlainAnswer(t, q).Err? || PlainAnswer(t, q) == Ok(Evaluate(t, Resolve(t, q).value))
  {
  }

  // Ask, change, ask again: whatever coherent cache there was, and as long as the identity of the
  // first answer has not expired, the second answer is not the plain one.
  lemma HarmIsObservable(t: Tables, before: IdentityEntries, q: IdentityRequest, m: Mutation, ttlSeconds: Option<int>,
                         serial: nat, asked: int, now: int)
    requires Coherent(t, before) && PlainAnswer(t, q).Ok? && !Harmless(t, Resolve(t, q).value, m)
    requires var key, entries := Resolve(t, q).value, AfterRead(t, before, q, asked, ttlSeconds, serial);
             key in entries ==> !Expired(entries[key], now)
    ensures var entries := AfterRead(t, before, q, asked, ttlSeconds, serial);
            CachedAnswer(After(t, m), Purged(entries, Notice(t, m)), q, now) != PlainAnswer(After(t, m), q)
  {
    ReadKeepsCoherence(t, before, q, asked, ttlSeconds, serial);
    ReadCaches(t, before, q, asked, ttlSeconds, serial);
    HarmShows(t, AfterRead(t, before, q, asked, ttlSeconds, serial), q, m, now);
  }

  lemma ReadCaches(t: Tables, before: IdentityEntries, q: IdentityRequest, asked: int, ttlSeconds: Option<int>,
                   serial: nat)
    requires PlainAnswer(t, q).Ok?
    ensures Resolve(t, q).value in AfterRead(t, before, q, asked, ttlSeconds, serial)
  {
  }

  // After a harmful change the entry is still there, and wrong.
  lemma HarmedEntryStays(t: Tables, entries: IdentityEntries, key: IdentityKey, m: Mutation)
    requires key in entries && Right(t, key, entries[key]) && !Harmless(t, key, m)
    ensures key in Purged(entries, Notice(t, m)) && Purged(entries, Notice(t, m))[key] == entries[key]
    ensures Resolvable(After(t, m), key) && Evaluate(After(t, m), key) != Evaluate(t, key)
  {
    PurgedKeys(t, entries, key, m);
    if !Survives(t, key, m) {
      PurgedHarmless(t, key, m);
    }
    SurvivorExact(t, key, m);
  }

  // Three harmful changes, one for each condition.
  lemma LateOrganisationHarms()
    ensures exists t: Tables, q, o ::
              PlainAnswer(t, q).Ok? && !Conflicts(t, UpsertOrg(o)) && !Harmless(t, Resolve(t, q).value, UpsertOrg(o))
  {
    var t: Tables := Rows(map["u" := User("u", Some("o"), map[], "")], map[], map[], map[], map[]);
    var q := IdentityRequest("u", None, None, true);
    assert MembershipRows(t, "u", None) == {};
    assert Resolve(t, q) == Ok(IdentityKey("u", Some("o"), None, true));
    var m := UpsertOrg(Org("o", "o", map[], ""));
    assert PlainAnswer(t, q).Ok? && !Harmless(t, Resolve(t, q).value, m);
  }

  lemma ExplicitMembership(t: Tables, q: IdentityRequest, m: Membership)
    requires q.userId in t.users && q.membershipId == Some(m.id) && q.orgId == None
    requires Get(t.memberships, m.id) == Some(m) && m.userId == q.userId
    ensures PlainAnswer(t, q).Ok?
    ensures Resolve(t, q) == Ok(IdentityKey(q.userId, Some(m.orgId), Some(m.id), q.includeGroups))
  {
    assert m.id in t.memberships && t.memberships[m.id] == m;
    assert ResolveMembership(t, q) == Ok(Some(m));
    assert t.users[q.userId].id == q.userId;
  }

  lemma GroupOfAnotherOrganisationHarms()
    ensures exists t: Tables, q, g ::
              && PlainAnswer(t, q).Ok? && !Conflicts(t, UpsertGroup(g))
              && !Harmless(t, Resolve(t, q).value, UpsertGroup(g))
  {
    var t, q, m := OneMembership();
    var g := Group("g", "p", "g", map[]);
    ExplicitMembership(t, q, m);
    StrayGroupHarms(t, Resolve(t, q).value, m, g);
    assert PlainAnswer(t, q).Ok? && !Harmless(t, Resolve(t, q).value, UpsertGroup(g));
  }

  // A user with a membership that lists a group which does not exist.
  lemma OneMembership() returns (t: Tables, q: IdentityRequest, m: Membership)
    ensures q.userId in t.users && q.membershipId == Some(m.id) && q.orgId == None && q.includeGroups
    ensures Get(t.memberships, m.id) == Some(m) && m.userId == q.userId
    ensures "g" in m.groupIds && "g" !in t.groups && m.orgId == "o" && m.orgId in t.orgs
  {
    m := Membership("m", "u", "o", "member", ["g"], map[], 0);
    t := Rows(map["u" := User("u", None, map[], "")], map["o" := Org("o", "o", map[], "")], map[],
              map["m" := m], map[]);
    q := IdentityRequest("u", None, Some("m"), true);
  }

  lemma StrayGroupHarms(t: Tables, key: IdentityKey, m: Membership, g: Group)
    requires key.membershipId.Some? && key.includeGroups && MembershipOf(t, key) == Some(m)
    requires g.id in m.groupIds && g.id !in t.groups && OrgIdOf(t, key) != Some(g.orgId)
    ensures !Harmless(t, key, UpsertGroup(g))
  {
  }

  lemma MovedEntitlementHarms()
    ensures exists t: Tables, q, e ::
              && PlainAnswer(t, q).Ok? && !Conflicts(t, UpsertEntitlement(e))
              && !Harmless(t, Resolve(t, q).value, UpsertEntitlement(e))
  {
    var t, q, e := OneEntitlement();
    var moved := e.(subject := Subject(UserSubject, "v"));
    OnlyEntitlement(t, q, e);
    assert !Harmless(t, Resolve(t, q).value, UpsertEntitlement(moved));
  }

  // A user with an entitlement.
  lemma OneEntitlement() returns (t: Tables, q: IdentityRequest, e: Entitlement)
    ensures q.userId == "u" && q.userId in t.users && t.users[q.userId].primaryOrgId.None? && t.memberships == map[]
    ensures q.orgId.None? && q.membershipId.None?
    ensures t.entitlements == map[e.id := e] && e.subject == Subject(UserSubject, "u")
  {
    e := Entitlement("e", Subject(UserSubject, "u"), "read", 0);
    t := Rows(map["u" := User("u", None, map[], "")], map[], map[], map[], map["e" := e]);
    q := IdentityRequest("u", None, None, true);
  }

  lemma OnlyEntitlement(t: Tables, q: IdentityRequest, e: Entitlement)
    requires q.userId in t.users && t.users[q.userId].primaryOrgId.None? && t.memberships == map[]
    requires q.orgId.None? && q.membershipId.None?
    requires t.entitlements == map[e.id := e] && e.subject == Subject(UserSubject, q.userId)
    ensures PlainAnswer(t, q).Ok?
    ensures SubjectsOf(t, Resolve(t, q).value) == {e.subject} && !Shadowed(t, Resolve(t, q).value, e)
  {
    assert MembershipRows(t, q.userId, None) == {};
    var key := Resolve(t, q).value;
    assert SubjectsOf(t, key) == {e.subject};
    EntitlementRowsMeaning(t, {e.subject});
    assert EntitlementRows(t, {e.subject}) == {e};
    OnlyRow(EntitlementListing(t, {e.subject}), e);
  }

  lemma OnlyRow(rows: seq<Entitlement>, e: Entitlement)
    requires Elements(rows) == {e} && Sorted(EntitlementLess, rows)
    ensures rows == [e] && !ShadowedAt(rows, 0)
  {
    EntitlementOrder();
    assert Sorted(EntitlementLess, [e]) && Elements([e]) == {e};
    ListingUnique(EntitlementLess, rows, [e]);
  }
}
