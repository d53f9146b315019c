/**
 Cached decisions against the tables. The forward-auth service takes its identities from the profile
 store here, and the store's mutations purge its decision cache; the question is when a cached
 decision outlives a change of the identity it was made for.
 */
module DecisionCoherence {
  import opened Prelude
  import opened Contracts
  import opened Ordering
  import opened MemoryCache
  import opened CacheInvalidation
  import opened ProfileTables
  import opened IdentityCoherence
  import IdentityRuns
  import Policy
  import opened Credentials
  import opened ForwardAuth

  function CallerOf(i: EffectiveIdentity): Caller {
    Caller(i.userId, if i.orgId.Some? then i.orgId.value else "", "", i.groups, i.labels,
           i.roles, i.entitlements, i.scopes)
  }

  // The mutation takes no decision for the identity away. One that tells the invalidator of a
  // membership alone names no decision tag, and so takes them all.
  ghost predicate Kept(t: Tables, m: Mutation, i: EffectiveIdentity) {
    Notice(t, m).Some? ==> DecisionTags(Notice(t, m).value) != {} && !Touches(Notice(t, m).value, CallerOf(i))
  }

  lemma KeptMeaning(t: Tables, q: IdentityRequest, m: Mutation)
    requires PlainAnswer(t, q).Ok? && Notice(t, m).Some? && Kept(t, m, PlainAnswer(t, q).value)
    ensures var key, c := Resolve(t, q).value, Notice(t, m).value;
            && c.userId != Some(q.userId)
            && (c.orgId.Some? ==> OrgIdOf(t, key) != c.orgId)
            && (forall id :: id in c.groupIds && id in t.groups ==> !Lists(t, key, id))
            && (c.userId.Some? || c.orgId.Some? || c.groupIds != [])
  {
    var key, c, who := Resolve(t, q).value, Notice(t, m).value, CallerOf(PlainAnswer(t, q).value);
    IdentityGroups(t, key);
    assert who.userId == q.userId;
    assert OrgIdOf(t, key).Some? ==> who.orgId == OrgIdOf(t, key).value;
    forall id | id in c.groupIds && id in t.groups ensures !Lists(t, key, id) {
      assert id !in who.groups;
    }
    NoDecisionTags(c);
  }

  lemma NoDecisionTags(c: Context)
    ensures c.userId.None? && c.orgId.None? && c.groupIds == [] ==> DecisionTags(c) == {}
  {
  }

  // --------------------------------------------------------------- what a request resolves to

  lemma KeyOwner(t: Tables, q: IdentityRequest)
    requires Resolve(t, q).Ok?
    ensures var key := Resolve(t, q).value;
            key.membershipId.Some? ==> t.memberships[key.membershipId.value].userId == q.userId
  {
  }

  // A user's earliest membership is the same if that row and no earlier one changes hands.
  lemma SameEarliest(t: Tables, u: Tables, userId: Id, orgId: Option<Id>)
    requires MembershipRows(u, userId, orgId) <= MembershipRows(t, userId, orgId)
    requires var first := EarliestMembership(t, userId, orgId);
             first.Some? ==> first.value in MembershipRows(u, userId, orgId)
    ensures EarliestMembership(u, userId, orgId) == EarliestMembership(t, userId, orgId)
  {
    MembershipOrder();
    var first, again := EarliestMembership(t, userId, orgId), EarliestMembership(u, userId, orgId);
    if first.Some? {
      EarliestIsFirst(u, userId, orgId, first.value);
      EarliestIsFirst(t, userId, orgId, again.value);
    }
  }

  lemma SameAnswer(t: Tables, u: Tables, q: IdentityRequest)
    requires t.orgs.Keys <= u.orgs.Keys
    requires PlainAnswer(t, q).Ok? && Resolve(u, q) == Resolve(t, q)
    ensures var key := Resolve(t, q).value;
            Resolvable(u, key) && PlainAnswer(u, q) == Ok(Evaluate(u, key))
  {
  }

  // ------------------------------------------------------------------- one mutation

  // The membership that the request goes by is given to another user.
  predicate TakesAway(t: Tables, key: IdentityKey, m: Mutation) {
    && m.UpsertMembership? && key.membershipId == Some(m.membership.id) && m.membership.userId != key.userId
  }

  // The key that the request comes to on the same tables, leaving that membership out.
  ghost function NextKey(t: Tables, q: IdentityRequest, id: Id): (key: IdentityKey)
    requires q.userId in t.users
    ensures Resolvable(t, key) && key.userId == q.userId && key.membershipId != Some(id)
  {
    KeyFor(t.users[q.userId], EarliestOther(t, q.userId, q.orgId, id), q)
  }

  // The user has another membership, which gives the same identity.
  ghost predicate Replaceable(t: Tables, q: IdentityRequest, id: Id)
    requires Resolve(t, q).Ok?
  {
    var next := NextKey(t, q, id);
    q.membershipId.None? && next.membershipId.Some? && Evaluate(t, next) == Evaluate(t, Resolve(t, q).value)
  }

  // A kept decision is for the right identity still. Three conditions are those of the identity
  // cache; the fourth is new, since decisions carry no tag of their membership: it must not be given
  // to another user, unless the earliest other one replaces it.
  ghost predicate DecisionHarmless(t: Tables, q: IdentityRequest, m: Mutation)
    requires Resolve(t, q).Ok?
  {
    var key := Resolve(t, q).value;
    if TakesAway(t, key, m) then Replaceable(t, q, m.membership.id) else Harmless(t, key, m)
  }

  lemma KeptSurvives(t: Tables, q: IdentityRequest, m: Mutation)
    requires PlainAnswer(t, q).Ok? && Kept(t, m, PlainAnswer(t, q).value)
    requires !TakesAway(t, Resolve(t, q).value, m)
    ensures Survives(t, Resolve(t, q).value, m)
  {
    var key := Resolve(t, q).value;
    if Notice(t, m).Some? {
      KeptMeaning(t, q, m);
      KeyOwner(t, q);
      NoticedMembership(t, key, m);
      forall tag | tag in IdentityTags(Notice(t, m).value) ensures !Carries(t, key, tag) {
        NotCarried(t, key, Notice(t, m).value, tag);
      }
    }
  }

  // A mutation that keeps the decision does not tell of the membership that the request goes by.
  lemma NoticedMembership(t: Tables, key: IdentityKey, m: Mutation)
    requires key.membershipId.Some? ==>
               key.membershipId.value in t.memberships && t.memberships[key.membershipId.value].userId == key.userId
    requires Notice(t, m).Some? && !TakesAway(t, key, m)
    requires var c := Notice(t, m).value;
             c.userId != Some(key.userId) && (c.userId.Some? || c.orgId.Some? || c.groupIds != [])
    ensures var c := Notice(t, m).value; c.membershipId.Some? ==> key.membershipId != c.membershipId
  {
  }

  lemma NotCarried(t: Tables, key: IdentityKey, c: Context, tag: IdentityTag)
    requires tag in IdentityTags(c) && c.userId != Some(key.userId)
    requires c.orgId.Some? ==> OrgIdOf(t, key) != c.orgId
    requires c.membershipId.Some? ==> key.membershipId != c.membershipId
    requires forall id :: id in c.groupIds && id in t.groups ==> !Lists(t, key, id)
    ensures !Carries(t, key, tag)
  {
    IdentityTagsMeaning(c);
  }

  lemma SameKey(t: Tables, q: IdentityRequest, m: Mutation)
    requires PlainAnswer(t, q).Ok? && Kept(t, m, PlainAnswer(t, q).value)
    requires !TakesAway(t, Resolve(t, q).value, m)
    ensures Resolve(After(t, m), q) == Resolve(t, q)
  {
    if Notice(t, m).None? {
      UnnoticedChangesNothing(t, m);
    } else {
      KeptMeaning(t, q, m);
      if m.UpsertMembership? || m.RemoveMembership? {
        SameKeyMembership(t, q, m);
      } else {
        SameMemberships(t, After(t, m), q);
      }
    }
  }

  lemma SameMemberships(t: Tables, u: Tables, q: IdentityRequest)
    requires t.memberships == u.memberships && Get(t.users, q.userId) == Get(u.users, q.userId)
    ensures Resolve(u, q) == Resolve(t, q)
  {
    assert MembershipRows(t, q.userId, q.orgId) == MembershipRows(u, q.userId, q.orgId);
  }

  lemma UnnoticedChangesNothing(t: Tables, m: Mutation)
    requires Notice(t, m).None?
    ensures After(t, m) == t
  {
    match m
    case DeleteGroup(id) => assert t.groups - {id} == t.groups;
    case RemoveMembership(id) => assert t.memberships - {id} == t.memberships;
    case RemoveEntitlement(id) => assert t.entitlements - {id} == t.entitlements;
  }

  lemma SameKeyMembership(t: Tables, q: IdentityRequest, m: Mutation)
    requires PlainAnswer(t, q).Ok? && (m.UpsertMembership? || m.RemoveMembership?)
    requires !TakesAway(t, Resolve(t, q).value, m) && Notice(t, m).Some? && Notice(t, m).value.userId != Some(q.userId)
    ensures Resolve(After(t, m), q) == Resolve(t, q)
  {
    var u, key := After(t, m), Resolve(t, q).value;
    KeyOwner(t, q);
    var id := if m.UpsertMembership? then m.membership.id else m.membershipId;
    assert key.membershipId != Some(id);
    if q.membershipId.None? {
      ImpliedMembership(t, q);
      SameImplied(t, m, id, key.membershipId, q.userId, q.orgId);
    } else {
      assert key.membershipId == q.membershipId;
    }
    SameResolved(t, u, q);
  }

  lemma SameResolved(t: Tables, u: Tables, q: IdentityRequest)
    requires t.users == u.users
    requires q.membershipId.Some? ==>
               Get(u.memberships, q.membershipId.value) == Get(t.memberships, q.membershipId.value)
    requires q.membershipId.None? ==>
               EarliestMembership(u, q.userId, q.orgId) == EarliestMembership(t, q.userId, q.orgId)
    ensures Resolve(u, q) == Resolve(t, q)
  {
    assert ResolveMembership(u, q) == ResolveMembership(t, q);
  }

  lemma SameImplied(t: Tables, m: Mutation, id: Id, membershipId: Option<Id>, userId: Id, orgId: Option<Id>)
    requires (m.UpsertMembership? && m.membership.id == id && m.membership.userId != userId)
             || (m.RemoveMembership? && m.membershipId == id)
    requires var first := EarliestMembership(t, userId, orgId);
             membershipId == (if first.Some? then Some(first.value.id) else None) && membershipId != Some(id)
    ensures EarliestMembership(After(t, m), userId, orgId) == EarliestMembership(t, userId, orgId)
  {
    OtherRows(t, m, id, userId, orgId);
    SameEarliest(t, After(t, m), userId, orgId);
  }

  lemma ImpliedMembership(t: Tables, q: IdentityRequest)
    requires q.userId in t.users && q.membershipId.None?
    ensures Resolve(t, q).Ok?
    ensures var first := EarliestMembership(t, q.userId, q.orgId);
            Resolve(t, q).value.membershipId == if first.Some? then Some(first.value.id) else None
  {
  }

  // Of the user's rows, only that of the changed membership may go.
  lemma OtherRows(t: Tables, m: Mutation, id: Id, userId: Id, orgId: Option<Id>)
    requires (m.UpsertMembership? && m.membership.id == id && m.membership.userId != userId)
             || (m.RemoveMembership? && m.membershipId == id)
    ensures MembershipRows(After(t, m), userId, orgId) <= MembershipRows(t, userId, orgId)
    ensures forall row :: row in MembershipRows(t, userId, orgId) && row.id != id ==>
              row in MembershipRows(After(t, m), userId, orgId)
    ensures forall row :: row in MembershipRows(After(t, m), userId, orgId) ==> row.id != id
  {
    MembershipRowsMeaning(t, userId, orgId);
    MembershipRowsMeaning(After(t, m), userId, orgId);
  }

  // Giving a membership away is, to a request of its user, as good as removing it.
  lemma GivenAwayIsRemoved(t: Tables, q: IdentityRequest, m: Membership)
    requires m.userId != q.userId && q.membershipId.None?
    ensures PlainAnswer(After(t, UpsertMembership(m)), q) == PlainAnswer(After(t, RemoveMembership(m.id)), q)
  {
    var u, v := After(t, UpsertMembership(m)), After(t, RemoveMembership(m.id));
    SameRowsWithout(t, m, q.userId, q.orgId);
    assert ResolveMembership(u, q) == ResolveMembership(v, q);
    if Resolve(u, q).Ok? {
      var key := Resolve(u, q).value;
      KeyOwner(u, q);
      assert key.membershipId != Some(m.id);
      SameElsewhere(u, v, key);
    }
  }

  lemma SameRowsWithout(t: Tables, m: Membership, userId: Id, orgId: Option<Id>)
    requires m.userId != userId
    ensures MembershipRows(After(t, UpsertMembership(m)), userId, orgId) ==
            MembershipRows(After(t, RemoveMembership(m.id)), userId, orgId)
  {
    OtherRows(t, UpsertMembership(m), m.id, userId, orgId);
    OtherRows(t, RemoveMembership(m.id), m.id, userId, orgId);
  }

  // Tables that differ in other memberships only give a key the same identity.
  lemma SameElsewhere(u: Tables, v: Tables, key: IdentityKey)
    requires Resolvable(u, key) && MembershipOf(u, key) == MembershipOf(v, key)
    requires u.users == v.users && u.orgs == v.orgs && u.groups == v.groups && u.entitlements == v.entitlements
    ensures Resolvable(v, key) && Evaluate(u, key) == Evaluate(v, key)
  {
    SameProfileInputs(u, v, key);
    SameEntitlements(u, v, key);
  }

  lemma EarliestLeft(t: Tables, m: Membership, userId: Id, orgId: Option<Id>)
    requires m.userId != userId
    ensures EarliestMembership(After(t, UpsertMembership(m)), userId, orgId) == EarliestOther(t, userId, orgId, m.id)
  {
    OtherRows(t, UpsertMembership(m), m.id, userId, orgId);
    var others := set row | row in MembershipRows(t, userId, orgId) && row.id != m.id;
    assert MembershipRows(After(t, UpsertMembership(m)), userId, orgId) == others;
  }

  lemma GivenAwayAnswer(t: Tables, q: IdentityRequest, m: Membership)
    requires PlainAnswer(t, q).Ok? && q.membershipId.None? && m.userId != q.userId
    ensures PlainAnswer(After(t, UpsertMembership(m)), q) == Ok(Evaluate(t, NextKey(t, q, m.id)))
  {
    var u, key := After(t, UpsertMembership(m)), NextKey(t, q, m.id);
    EarliestLeft(t, m, q.userId, q.orgId);
    assert ResolveMembership(u, q) == Ok(EarliestOther(t, q.userId, q.orgId, m.id));
    assert Resolve(u, q) == Ok(key);
    SameElsewhere(t, u, key);
  }

  // Giving away the membership that a request goes by changes its answer exactly unless the user has
  // another membership and the earliest of those gives the same identity. With none left, the answer
  // always changes.
  lemma GivenAwayExact(t: Tables, q: IdentityRequest, m: Membership)
    requires PlainAnswer(t, q).Ok? && q.membershipId.None?
    requires TakesAway(t, Resolve(t, q).value, UpsertMembership(m))
    ensures PlainAnswer(After(t, UpsertMembership(m)), q) == PlainAnswer(t, q) <==> Replaceable(t, q, m.id)
  {
    GivenAwayAnswer(t, q, m);
    RolesTell(t, NextKey(t, q, m.id));
    RolesTell(t, Resolve(t, q).value);
  }

  lemma RolesTell(t: Tables, key: IdentityKey)
    requires Resolvable(t, key)
    ensures Evaluate(t, key).roles != [] <==> key.membershipId.Some?
  {
  }

  // The request for the membership itself is refused once it is another user's.
  lemma GivenAwayIsRefused(t: Tables, q: IdentityRequest, m: Membership)
    requires q.userId in t.users && q.membershipId == Some(m.id) && m.userId != q.userId
    ensures PlainAnswer(After(t, UpsertMembership(m)), q) == Err(MembershipOfOtherUser(m.id))
  {
  }

  // A decision that a mutation keeps is for the identity that the request has afterwards exactly
  // when the mutation is harmless to it.
  lemma DecisionExact(t: Tables, q: IdentityRequest, m: Mutation)
    requires PlainAnswer(t, q).Ok? && Kept(t, m, PlainAnswer(t, q).value)
    ensures PlainAnswer(After(t, m), q) == PlainAnswer(t, q) <==> DecisionHarmless(t, q, m)
  {
    var key := Resolve(t, q).value;
    if TakesAway(t, key, m) {
      if q.membershipId.None? {
        GivenAwayExact(t, q, m.membership);
      } else {
        GivenAwayIsRefused(t, q, m.membership);
      }
    } else {
      KeptSurvives(t, q, m);
      SameKey(t, q, m);
      SurvivorExact(t, key, m);
      SameAnswer(t, After(t, m), q);
    }
  }

  // ------------------------------------------------------------------- the whole cache

  // `decide` is the policy engine on a caller and an action, `describe` the text of an error.
  datatype Setting = Setting(
    cfg: Config, decide: (Caller, string) -> Result<Policy.Decision, string>, describe: IdentityError -> string)

  // The request that a token was granted to, and the identity it had.
  datatype Origin = Origin(q: IdentityRequest, action: string, identity: EffectiveIdentity)

  ghost function ResolvedFor(s: Setting, t: Tables, q: IdentityRequest): Result<Caller, Refusal> {
    match PlainAnswer(t, q)
    case Ok(i) => Ok(CallerOf(i))
    case Err(e) => Err(IdentityResolution(s.describe(e)))
  }

  ghost function DecisionFor(s: Setting, t: Tables, q: IdentityRequest, action: string)
    : Result<Policy.Decision, string>
  {
    if PlainAnswer(t, q).Ok? then s.decide(CallerOf(PlainAnswer(t, q).value), action) else Err("")
  }

  // The entry of a token was built for its origin.
  ghost predicate Built(s: Setting, token: string, o: Origin, e: Entry<CachedDecision, DecisionTag>) {
    var who := CallerOf(o.identity);
    var decision := s.decide(who, o.action);
    && Tokened(Ok(who), decision) && decision.value.decisionJwt.value == token
    && e.tags == ForwardAuth.TagsOf(who) && e.value.headers == AllowResponse(s.cfg, who, decision.value).headers
  }

  ghost predicate AllBuilt(s: Setting, entries: DecisionEntries, origins: map<string, Origin>) {
    forall token :: token != "" && CacheKey(s.cfg, token) in entries ==>
      token in origins && Built(s, token, origins[token], entries[CacheKey(s.cfg, token)])
  }

  // And its origin has that identity still.
  ghost predicate AllFresh(s: Setting, t: Tables, entries: DecisionEntries, origins: map<string, Origin>) {
    forall token :: token != "" && CacheKey(s.cfg, token) in entries ==>
      token in origins && PlainAnswer(t, origins[token].q) == Ok(origins[token].identity)
  }

  function PurgedDecisions(entries: DecisionEntries, notice: Option<Context>): DecisionEntries {
    if notice.None? then entries else Invalidated(entries, DecisionTags(notice.value))
  }

  lemma KeptEntries(s: Setting, t: Tables, entries: DecisionEntries, origins: map<string, Origin>, m: Mutation,
                    token: string)
    requires AllBuilt(s, entries, origins) && token != "" && CacheKey(s.cfg, token) in entries
    ensures CacheKey(s.cfg, token) in PurgedDecisions(entries, Notice(t, m)) <==> Kept(t, m, origins[token].identity)
  {
    assert Built(s, token, origins[token], entries[CacheKey(s.cfg, token)]);
    if Notice(t, m).Some? {
      ChangeEndsMeaning(Notice(t, m).value, CallerOf(origins[token].identity));
    }
  }

  // The main step: a mutation and its purge keep every cached decision fresh exactly when the
  // mutation is harmless to every decision it keeps.
  lemma DecisionMutationExact(s: Setting, t: Tables, entries: DecisionEntries, origins: map<string, Origin>,
                              m: Mutation)
    requires AllBuilt(s, entries, origins) && AllFresh(s, t, entries, origins)
    ensures AllFresh(s, After(t, m), PurgedDecisions(entries, Notice(t, m)), origins) <==>
            forall token :: token != "" && CacheKey(s.cfg, token) in PurgedDecisions(entries, Notice(t, m)) ==>
              DecisionHarmless(t, origins[token].q, m)
  {
    var purged := PurgedDecisions(entries, Notice(t, m));
    forall token | token != "" && CacheKey(s.cfg, token) in purged
      ensures CacheKey(s.cfg, token) in entries && token in origins && Resolve(t, origins[token].q).Ok?
      ensures PlainAnswer(After(t, m), origins[token].q) == Ok(origins[token].identity) <==>
              DecisionHarmless(t, origins[token].q, m)
    {
      KeptEntries(s, t, entries, origins, m, token);
      DecisionExact(t, origins[token].q, m);
    }
  }

  // ------------------------------------------------------- where the new condition is needed

  // A user's only membership is given to another user, in another organisation, with none of the
  // identity's groups: the decision stays, with a role that the user has no more.
  lemma GivenAwayOutlives(t: Tables, q: IdentityRequest, m: Membership, i: EffectiveIdentity)
    requires PlainAnswer(t, q) == Ok(i) && q.membershipId.None? && m.id in t.memberships
    requires MembershipRows(t, q.userId, q.orgId) == {t.memberships[m.id]} && m.userId != q.userId
    requires i.orgId != Some(m.orgId) && forall id :: id in m.groupIds ==> id !in i.groups
    ensures Kept(t, UpsertMembership(m), i)
    ensures var after := PlainAnswer(After(t, UpsertMembership(m)), q);
            after.Ok? && after.value.roles == [] && i.roles == [t.memberships[m.id].role]
  {
    AnswerUser(t, q);
    NotTouched(t, m, i);
    GivenAwayAnswer(t, q, m);
    assert t.memberships[m.id] in MembershipRows(t, q.userId, q.orgId);
    ImpliedMembership(t, q);
    RolesTell(t, NextKey(t, q, m.id));
  }

  // Such tables, and such a change.
  lemma OnlyMembershipGivenAway()
    ensures exists t: Tables, q, m, i ::
              && PlainAnswer(t, q) == Ok(i) && q.membershipId.None? && Kept(t, UpsertMembership(m), i)
              && PlainAnswer(After(t, UpsertMembership(m)), q) != Ok(i)
  {
    var t, q, m, was := OneAdmin();
    MembershipRowsMeaning(t, q.userId, None);
    assert MembershipRows(t, q.userId, q.orgId) == {was};
    AdminAnswer(t, q, was);
    GivenAwayOutlives(t, q, m, PlainAnswer(t, q).value);
  }

  lemma AnswerUser(t: Tables, q: IdentityRequest)
    requires PlainAnswer(t, q).Ok?
    ensures q.userId in t.users && PlainAnswer(t, q).value.userId == q.userId
  {
  }

  lemma NotTouched(t: Tables, m: Membership, i: EffectiveIdentity)
    requires m.userId != i.userId && i.orgId != Some(m.orgId) && forall id :: id in m.groupIds ==> id !in i.groups
    ensures Kept(t, UpsertMembership(m), i)
  {
    assert DecisionUser(m.userId) in DecisionTags(MembershipContext(m));
  }

  // The only membership of a user, and what becomes of it.
  lemma OneAdmin() returns (t: Tables, q: IdentityRequest, m: Membership, was: Membership)
    ensures q.userId in t.users && q.orgId.None? && q.membershipId.None? && t.memberships == map[m.id := was]
    ensures was.id == m.id && was.userId == q.userId != m.userId && was.orgId != m.orgId && m.groupIds == []
    ensures was.orgId in t.orgs
  {
    was, m := Membership("m", "u", "o", "admin", [], map[], 0), Membership("m", "v", "p", "admin", [], map[], 0);
    t := Rows(map["u" := User("u", None, map[], "")], map["o" := Org("o", "o", map[], "")], map[], map["m" := was],
              map[]);
    q := IdentityRequest("u", None, None, true);
  }

  lemma AdminAnswer(t: Tables, q: IdentityRequest, was: Membership)
    requires q.userId in t.users && q.orgId.None? && q.membershipId.None? && was.orgId in t.orgs
    requires MembershipRows(t, q.userId, None) == {was}
    ensures PlainAnswer(t, q).Ok? && PlainAnswer(t, q).value.orgId == Some(was.orgId)
  {
    ImpliedMembership(t, q);
  }
}
