/** Requests and mutations with cached decisions, over whole runs. */
module DecisionRuns {
  import opened Prelude
  import opened Contracts
  import opened MemoryCache
  import opened CacheInvalidation
  import opened ProfileTables
  import opened IdentityCoherence
  import IdentityRuns
  import opened Credentials
  import opened ForwardAuth
  import opened DecisionCoherence

  datatype Event =
    | Change(m: Mutation, at: int)
    | Ask(q: IdentityRequest, action: string, token: Option<string>, at: int)
    | Clear(at: int)
    | Fire(key: string, serial: nat, at: int)

  datatype World = World(tables: Tables, cache: CacheState, origins: map<string, Origin>)

  // The forward-auth service's own event, for a request of the profile store's users.
  ghost function Handling(s: Setting, t: Tables, e: Event): ForwardAuth.Event
    requires e.Ask?
  {
    Handled(e.token, ResolvedFor(s, t, e.q), DecisionFor(s, t, e.q, e.action), e.at)
  }

  ghost function Step(s: Setting, w: World, e: Event): World {
    match e
    case Change(m, at) =>
      if Conflicts(w.tables, m) then w
      else
        World(After(w.tables, m),
              if Notice(w.tables, m).None? then w.cache
              else ForwardAuth.Step(s.cfg, w.cache, Changed(Notice(w.tables, m).value, at)),
              w.origins)
    case Ask(q, action, _, _) =>
      var h := Handling(s, w.tables, e);
      World(w.tables, ForwardAuth.Step(s.cfg, w.cache, h),
            if Tokened(h.resolved, h.policy) && Grants(s.cfg, w.cache, h, h.policy.value.decisionJwt.value)
            then w.origins[h.policy.value.decisionJwt.value := Origin(q, action, PlainAnswer(w.tables, q).value)]
            else w.origins)
    case Clear(at) => w.(cache := ForwardAuth.Step(s.cfg, w.cache, Cleared(at)))
    case Fire(key, serial, at) => w.(cache := ForwardAuth.Step(s.cfg, w.cache, Fired(key, serial, at)))
  }

  // The conditions of the identity cache, and that a membership keeps its user.
  ghost predicate Permitted(t: Tables, e: Event) {
    match e
    case Ask(q, _, _, at) => IdentityRuns.Permitted(t, IdentityRuns.Ask(q, at))
    case Change(m, _) =>
      && IdentityRuns.Permitted(t, IdentityRuns.Change(m))
      && (m.UpsertMembership? && m.membership.id in t.memberships ==>
            t.memberships[m.membership.id].userId == m.membership.userId)
    case _ => true
  }

  ghost predicate AllPermitted(s: Setting, w: World, run: seq<Event>)
    decreases |run|
  {
    run == [] || (Permitted(w.tables, run[0]) && AllPermitted(s, Step(s, w, run[0]), run[1..]))
  }

  // The organisation that the request resolves to is stored.
  ghost predicate Stored(t: Tables, q: IdentityRequest) {
    Resolve(t, q).Ok? && (Resolve(t, q).value.orgId.Some? ==> Resolve(t, q).value.orgId.value in t.orgs)
  }

  ghost predicate AllStored(s: Setting, t: Tables, entries: DecisionEntries, origins: map<string, Origin>) {
    forall token :: token != "" && CacheKey(s.cfg, token) in entries ==> token in origins && Stored(t, origins[token].q)
  }

  ghost predicate Right(s: Setting, w: World) {
    && AllBuilt(s, w.cache.entries, w.origins)
    && AllFresh(s, w.tables, w.cache.entries, w.origins)
    && AllStored(s, w.tables, w.cache.entries, w.origins)
  }

  lemma PermittedIsHarmless(t: Tables, q: IdentityRequest, m: Mutation)
    requires PlainAnswer(t, q).Ok? && Stored(t, q) && Kept(t, m, PlainAnswer(t, q).value)
    requires Permitted(t, Change(m, 0)) && !Conflicts(t, m)
    ensures DecisionHarmless(t, q, m) && Stored(After(t, m), q)
  {
    var key := Resolve(t, q).value;
    KeyOwner(t, q);
    if Notice(t, m).Some? {
      KeptMeaning(t, q, m);
    }
    assert !TakesAway(t, key, m);
    assert IdentityRuns.LinkedKey(t, key);
    IdentityRuns.PermittedHarmlessKey(t, key, m);
    SameKey(t, q, m);
  }

  lemma ChangeKeepsRight(s: Setting, w: World, m: Mutation, at: int)
    requires Right(s, w) && Permitted(w.tables, Change(m, at))
    ensures Right(s, Step(s, w, Change(m, at)))
  {
    if !Conflicts(w.tables, m) {
      PurgedStaysRight(s, w, m);
      assert Step(s, w, Change(m, at)).cache.entries == PurgedDecisions(w.cache.entries, Notice(w.tables, m));
    }
  }

  lemma PurgedStaysRight(s: Setting, w: World, m: Mutation)
    requires Right(s, w) && Permitted(w.tables, Change(m, 0))
    ensures !Conflicts(w.tables, m) ==>
              var purged := PurgedDecisions(w.cache.entries, Notice(w.tables, m));
              && AllBuilt(s, purged, w.origins) && AllFresh(s, After(w.tables, m), purged, w.origins)
              && AllStored(s, After(w.tables, m), purged, w.origins)
  {
    var t, entries, origins := w.tables, w.cache.entries, w.origins;
    if Conflicts(t, m) {
      return;
    }
    var purged := PurgedDecisions(entries, Notice(t, m));
    forall token | token != "" && CacheKey(s.cfg, token) in purged
      ensures CacheKey(s.cfg, token) in entries && purged[CacheKey(s.cfg, token)] == entries[CacheKey(s.cfg, token)]
      ensures DecisionHarmless(t, origins[token].q, m) && Stored(After(t, m), origins[token].q)
    {
      KeptEntries(s, t, entries, origins, m, token);
      PermittedIsHarmless(t, origins[token].q, m);
    }
    DecisionMutationExact(s, t, entries, origins, m);
  }

  lemma AskKeepsBuilt(s: Setting, w: World, e: Event)
    requires AllBuilt(s, w.cache.entries, w.origins) && e.Ask?
    ensures AllBuilt(s, Step(s, w, e).cache.entries, Step(s, w, e).origins)
  {
    var after := Step(s, w, e);
    forall token | token != "" && CacheKey(s.cfg, token) in after.cache.entries
      ensures token in after.origins
              && Built(s, token, after.origins[token], after.cache.entries[CacheKey(s.cfg, token)])
    {
      if !GrantedNow(s, w, e, token) {
        EntryAsBefore(s, w, e, token);
      }
    }
  }

  lemma AskKeepsFresh(s: Setting, w: World, e: Event)
    requires FreshNow(s, w) && e.Ask?
    ensures FreshNow(s, Step(s, w, e))
  {
    var after := Step(s, w, e);
    forall token | token != "" && CacheKey(s.cfg, token) in after.cache.entries
      ensures token in after.origins
              && PlainAnswer(w.tables, after.origins[token].q) == Ok(after.origins[token].identity)
    {
      if !GrantedNow(s, w, e, token) {
        EntryAsBefore(s, w, e, token);
      }
    }
  }

  lemma AskKeepsStored(s: Setting, w: World, e: Event)
    requires AllStored(s, w.tables, w.cache.entries, w.origins) && e.Ask? && Permitted(w.tables, e)
    ensures AllStored(s, w.tables, Step(s, w, e).cache.entries, Step(s, w, e).origins)
  {
    var after := Step(s, w, e);
    forall token | token != "" && CacheKey(s.cfg, token) in after.cache.entries
      ensures token in after.origins && Stored(w.tables, after.origins[token].q)
    {
      if !GrantedNow(s, w, e, token) {
        EntryAsBefore(s, w, e, token);
      }
    }
  }

  // The request is granted the token now.
  ghost predicate GrantedNow(s: Setting, w: World, e: Event, token: string)
    requires e.Ask?
  {
    Grants(s.cfg, w.cache, Handling(s, w.tables, e), token)
  }

  lemma EntryAsBefore(s: Setting, w: World, e: Event, token: string)
    requires e.Ask? && token != "" && !Grants(s.cfg, w.cache, Handling(s, w.tables, e), token)
    ensures var after, key := Step(s, w, e), CacheKey(s.cfg, token);
            && (key in after.cache.entries ==>
                  key in w.cache.entries && after.cache.entries[key] == w.cache.entries[key])
            && Get(after.origins, token) == Get(w.origins, token)
  {
    var h := Handling(s, w.tables, e);
    UngrantedEntry(s.cfg, w.cache, h, token);
    assert !(Tokened(h.resolved, h.policy) && Grants(s.cfg, w.cache, h, h.policy.value.decisionJwt.value)
             && h.policy.value.decisionJwt.value == token);
  }

  // A request leaves the entries of the tokens it is not granted.
  lemma UngrantedEntry(cfg: Config, cache: CacheState, h: ForwardAuth.Event, token: string)
    requires h.Handled? && token != "" && !Grants(cfg, cache, h, token)
    ensures var after, key := ForwardAuth.Step(cfg, cache, h).entries, CacheKey(cfg, token);
            key in after ==> key in cache.entries && after[key] == cache.entries[key]
  {
    if Tokened(h.resolved, h.policy) {
      CacheKeysDiffer(cfg, h.policy.value.decisionJwt.value, token);
    }
  }

  lemma StepKeepsRight(s: Setting, w: World, e: Event)
    requires Right(s, w) && Permitted(w.tables, e)
    ensures Right(s, Step(s, w, e))
  {
    match e {
      case Change(m, at) => ChangeKeepsRight(s, w, m, at);
      case Ask(_, _, _, _) =>
        AskKeepsBuilt(s, w, e);
        AskKeepsFresh(s, w, e);
        AskKeepsStored(s, w, e);
      case Clear(_) =>
      case Fire(_, _, _) =>
        var after := Step(s, w, e).cache.entries;
        assert forall key :: key in after ==> key in w.cache.entries && after[key] == w.cache.entries[key];
    }
  }

  ghost function AfterRun(s: Setting, w: World, run: seq<Event>): World
    decreases |run|
  {
    if run == [] then w else AfterRun(s, Step(s, w, run[0]), run[1..])
  }

  lemma {:induction false} RunKeepsRight(s: Setting, w: World, run: seq<Event>)
    requires Right(s, w) && AllPermitted(s, w, run)
    ensures Right(s, AfterRun(s, w, run))
    decreases |run|
  {
    if run != [] {
      StepKeepsRight(s, w, run[0]);
      RunKeepsRight(s, Step(s, w, run[0]), run[1..]);
    }
  }

  // Over every permitted run of mutations and requests, whatever is served for a token is what the
  // request it was granted to would get now, its identity read from the tables and the policy
  // engine asked again.
  lemma ServedIsFresh(s: Setting, w: World, run: seq<Event>, token: string, now: int)
    requires Right(s, w) && AllPermitted(s, w, run)
    ensures var after := AfterRun(s, w, run);
            var served := Served(s.cfg, after.cache.entries, Some(token), now);
            served.Some? ==>
              && token in after.origins
              && var o := after.origins[token];
                 served.value ==
                 Evaluated(s.cfg, ResolvedFor(s, after.tables, o.q), DecisionFor(s, after.tables, o.q, o.action))
  {
    RunKeepsRight(s, w, run);
    var after := AfterRun(s, w, run);
    if Served(s.cfg, after.cache.entries, Some(token), now).Some? {
      RightServes(s, after, token, now);
    }
  }

  lemma RightServes(s: Setting, w: World, token: string, now: int)
    requires Right(s, w)
    ensures Served(s.cfg, w.cache.entries, Some(token), now).Some? ==>
              && token in w.origins
              && var o := w.origins[token];
                 Served(s.cfg, w.cache.entries, Some(token), now).value ==
                 Evaluated(s.cfg, ResolvedFor(s, w.tables, o.q), DecisionFor(s, w.tables, o.q, o.action))
  {
    if Served(s.cfg, w.cache.entries, Some(token), now).Some? {
      var o := w.origins[token];
      var who := CallerOf(o.identity);
      assert Built(s, token, o, w.cache.entries[CacheKey(s.cfg, token)]);
      FullHeaders(s.cfg, Handled(None, Ok(who), s.decide(who, o.action), now), token);
    }
  }

  lemma NothingCachedIsRight(s: Setting, t: Tables)
    ensures Right(s, World(t, CacheState(map[], 0), map[]))
  {
  }

  // From any tables, with nothing cached to begin with.
  lemma ServedIsFreshFromStart(s: Setting, t: Tables, run: seq<Event>, token: string, now: int)
    requires AllPermitted(s, World(t, CacheState(map[], 0), map[]), run)
    ensures var after := AfterRun(s, World(t, CacheState(map[], 0), map[]), run);
            var served := Served(s.cfg, after.cache.entries, Some(token), now);
            served.Some? ==>
              && token in after.origins
              && var o := after.origins[token];
                 served.value ==
                 Evaluated(s.cfg, ResolvedFor(s, after.tables, o.q), DecisionFor(s, after.tables, o.q, o.action))
  {
    NothingCachedIsRight(s, t);
    ServedIsFresh(s, World(t, CacheState(map[], 0), map[]), run, token, now);
  }

  // ------------------------------------------------------------------ any run, exactly

  ghost predicate FreshNow(s: Setting, w: World) {
    AllFresh(s, w.tables, w.cache.entries, w.origins)
  }

  ghost predicate StaysFresh(s: Setting, w: World, run: seq<Event>)
    decreases |run|
  {
    FreshNow(s, w) && (run == [] || StaysFresh(s, Step(s, w, run[0]), run[1..]))
  }

  // The mutation, unless refused, is harmless to every decision it keeps.
  ghost predicate HarmlessNow(s: Setting, w: World, e: Event) {
    e.Change? && !Conflicts(w.tables, e.m) ==>
      forall token :: && token != "" && token in w.origins && Resolve(w.tables, w.origins[token].q).Ok?
                      && CacheKey(s.cfg, token) in PurgedDecisions(w.cache.entries, Notice(w.tables, e.m)) ==>
        DecisionHarmless(w.tables, w.origins[token].q, e.m)
  }

  ghost predicate StaysHarmless(s: Setting, w: World, run: seq<Event>)
    decreases |run|
  {
    run == [] || (HarmlessNow(s, w, run[0]) && StaysHarmless(s, Step(s, w, run[0]), run[1..]))
  }

  lemma StepBuilt(s: Setting, w: World, e: Event)
    requires AllBuilt(s, w.cache.entries, w.origins)
    ensures AllBuilt(s, Step(s, w, e).cache.entries, Step(s, w, e).origins)
  {
    var after := Step(s, w, e);
    if e.Ask? {
      AskKeepsBuilt(s, w, e);
    } else {
      OthersShrink(s, w, e);
    }
  }

  // Only requests add to the cache.
  lemma OthersShrink(s: Setting, w: World, e: Event)
    requires !e.Ask?
    ensures var after := Step(s, w, e);
            && after.origins == w.origins
            && forall key :: key in after.cache.entries ==>
                 key in w.cache.entries && after.cache.entries[key] == w.cache.entries[key]
  {
  }

  lemma StepFresh(s: Setting, w: World, e: Event)
    requires AllBuilt(s, w.cache.entries, w.origins) && FreshNow(s, w)
    ensures FreshNow(s, Step(s, w, e)) <==> HarmlessNow(s, w, e)
  {
    match e {
      case Change(m, at) => ChangeFresh(s, w, m, at);
      case Ask(_, _, _, _) => AskKeepsFresh(s, w, e);
      case Clear(_) =>
      case Fire(_, _, _) =>
        assert forall key :: key in Step(s, w, e).cache.entries ==> key in w.cache.entries;
    }
  }

  lemma ChangeFresh(s: Setting, w: World, m: Mutation, at: int)
    requires AllBuilt(s, w.cache.entries, w.origins) && FreshNow(s, w)
    ensures FreshNow(s, Step(s, w, Change(m, at))) <==> HarmlessNow(s, w, Change(m, at))
  {
    if !Conflicts(w.tables, m) {
      var purged := PurgedDecisions(w.cache.entries, Notice(w.tables, m));
      assert Step(s, w, Change(m, at)).cache.entries == purged;
      assert forall key :: key in purged ==> key in w.cache.entries;
      DecisionMutationExact(s, w.tables, w.cache.entries, w.origins, m);
    }
  }

  // Over every run, every cached decision is for the identity that its request has, after each
  // event, exactly when each mutation is harmless to the decisions it keeps.
  lemma {:induction false} RunFreshExact(s: Setting, w: World, run: seq<Event>)
    requires AllBuilt(s, w.cache.entries, w.origins) && FreshNow(s, w)
    ensures StaysFresh(s, w, run) <==> StaysHarmless(s, w, run)
    decreases |run|
  {
    if run != [] {
      var next := Step(s, w, run[0]);
      StepFresh(s, w, run[0]);
      StepBuilt(s, w, run[0]);
      if FreshNow(s, next) {
        RunFreshExact(s, next, run[1..]);
      }
    }
  }
}
