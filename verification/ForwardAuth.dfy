/**
 The forward-auth service and its decision cache. What the policy engine answers is a parameter;
 obligations are their JSON text.
 */
module ForwardAuth {
  import opened Prelude
  import opened Contracts
  import opened MemoryCache
  import opened CacheInvalidation
  import opened Policy
  import opened KeyStore
  import opened Credentials

  datatype Header =
    | UserSub | OrgId | SessionId | UserGroups | UserRoles | UserEntitlements | UserScopes | UserLabels
    | DecisionToken | Reason | Obligations | ErrorCode | ErrorMessage

  datatype Response = Response(status: nat, headers: map<Header, string>)

  datatype CachedDecision = CachedDecision(headers: map<Header, string>, expiresAt: int)

  type DecisionEntries = Entries<string, CachedDecision, DecisionTag>

  // `labelsText` is the JSON text of a label set, `lower` and `upper` the engine's changes of case.
  datatype Config = Config(prefix: string, ttlSeconds: int, host: Host, builders: Builders)

  datatype Host = Host(labelsText: LabelSet -> string, lower: string -> string, upper: string -> string)

  datatype Builders = Builders(
    action: Option<Request -> string>, resource: Option<Request -> Option<Resource>>,
    environment: Option<(Request, Caller) -> Option<Environment>>)

  const DEFAULT_DECISION_TTL_SECONDS := 55
  const DEFAULT_CACHE_PREFIX := "forward-auth:decision"

  function Configured(prefix: Option<string>, ttlSeconds: Option<int>, host: Host, builders: Builders): (r: Config)
    ensures r.ttlSeconds >= 1
  {
    var ttl := ttlSeconds.GetOr(DEFAULT_DECISION_TTL_SECONDS);
    Config(prefix.GetOr(DEFAULT_CACHE_PREFIX), if ttl < 1 then 1 else ttl, host, builders)
  }

  // Decisions are kept for the time asked for, if that is a second or more, else for a second; for 55
  // seconds if no time is asked for.
  lemma ConfiguredMeaning(prefix: Option<string>, ttlSeconds: Option<int>, host: Host, builders: Builders)
    ensures var cfg := Configured(prefix, ttlSeconds, host, builders);
            && (ttlSeconds == None ==> cfg.ttlSeconds == 55)
            && (ttlSeconds.Some? && ttlSeconds.value >= 1 ==> cfg.ttlSeconds == ttlSeconds.value)
            && (ttlSeconds.Some? && ttlSeconds.value < 1 ==> cfg.ttlSeconds == 1)
            && cfg.prefix == (if prefix.Some? then prefix.value else "forward-auth:decision")
            && cfg.host == host && cfg.builders == builders
  {
  }

  function CacheKey(cfg: Config, token: string): string {
    cfg.prefix + ":" + token
  }

  lemma CacheKeysDiffer(cfg: Config, a: string, b: string)
    ensures CacheKey(cfg, a) == CacheKey(cfg, b) <==> a == b
  {
    SamePrefix(cfg.prefix + ":", a, b);
  }

  // ------------------------------------------------------------------ responses

  function HeaderName(h: Header): string {
    match h
    case UserSub => "x-user-sub"
    case OrgId => "x-org-id"
    case SessionId => "x-session-id"
    case UserGroups => "x-user-groups"
    case UserRoles => "x-user-roles"
    case UserEntitlements => "x-user-entitlements"
    case UserScopes => "x-user-scopes"
    case UserLabels => "x-user-labels"
    case DecisionToken => "x-decision-jwt"
    case Reason => "x-forward-auth-reason"
    case Obligations => "x-policy-obligations"
    case ErrorCode => "x-forward-auth-error"
    case ErrorMessage => "x-forward-auth-error-message"
  }

  // No header stands in for another.
  lemma HeaderNamesDiffer(a: Header, b: Header)
    ensures HeaderName(a) == HeaderName(b) <==> a == b
  {
  }

  function Join(parts: seq<string>): string {
    if parts == [] then ""
    else if |parts| == 1 then parts[0]
    else parts[0] + "," + Join(parts[1..])
  }

  // The headers that have a value.
  function HeaderMap(headers: map<Header, string>): map<Header, string> {
    map h | h in headers && headers[h] != "" :: headers[h]
  }

  function Present(h: Header, value: Option<string>): map<Header, string> {
    if value.Some? && value.value != "" then map[h := value.value] else map[]
  }

  function BaseHeaders(who: Caller, scopes: string, labels: string): map<Header, string> {
    HeaderMap(Claims(who, scopes, labels))
  }

  function Claims(who: Caller, scopes: string, labels: string): map<Header, string> {
    map[
      UserSub := who.userId,
      OrgId := who.orgId,
      SessionId := who.sessionId,
      UserGroups := Join(who.groups),
      UserRoles := Join(who.roles),
      UserEntitlements := Join(who.entitlements),
      UserScopes := scopes,
      UserLabels := labels]
  }

  function Explained(headers: map<Header, string>, decision: Decision): map<Header, string> {
    headers + Present(DecisionToken, decision.decisionJwt)
            + Present(Reason, decision.reason)
            + Obligated(decision.obligations)
  }

  lemma UpdateIsUnion(headers: map<Header, string>, h: Header, value: Option<string>)
    ensures headers + Present(h, value) ==
            if value.Some? && value.value != "" then headers[h := value.value] else headers
  {
  }

  lemma ObligatedIsUnion(headers: map<Header, string>, obligations: Option<string>)
    ensures headers + Obligated(obligations) ==
            if obligations.Some? then headers[Obligations := obligations.value] else headers
  {
  }

  function AllowResponse(cfg: Config, who: Caller, decision: Decision): Response {
    Response(200, Explained(BaseHeaders(who, Join(Named(who.scopes)), cfg.host.labelsText(who.labels)), decision))
  }

  // Obligations are a structured value, which is there or not.
  function Obligated(obligations: Option<string>): map<Header, string> {
    if obligations.Some? then map[Obligations := obligations.value] else map[]
  }

  function Forbidden(reason: string, obligations: Option<string>): Response {
    Response(403, map[ErrorCode := reason] + Obligated(obligations))
  }

  function Unauthorized(reason: string): Response {
    Response(401, map[ErrorCode := reason])
  }

  function Failure(code: string, status: nat, message: string): Response {
    Response(status, map[ErrorCode := code] + Present(ErrorMessage, Some(message)))
  }

  function Refused(refusal: Refusal): Response {
    match refusal
    case MissingCredentials => Unauthorized("missing_credentials")
    case InactiveToken => Unauthorized("inactive_token")
    case InvalidApiKey => Unauthorized("invalid_api_key")
    case ApiKeyInactive => Forbidden("api_key_inactive", None)
    case ApiKeyNotSupported => Failure("api_key_not_supported", 500, "API key handling is not configured")
    case TokenValidation(m) => Failure("token_validation_error", 502, m)
    case KeyLookup(m) => Failure("api_key_lookup_failed", 502, m)
    case IdentityResolution(m) => Failure("identity_resolution_error", 502, m)
  }

  // What the service answers when it evaluates the policy.
  function Evaluated(cfg: Config, resolved: Result<Caller, Refusal>, policy: Result<Decision, string>): Response {
    if resolved.Err? then Refused(resolved.error)
    else if policy.Err? then Failure("policy_error", 502, policy.error)
    else if !policy.value.allow then Forbidden(policy.value.reason.GetOr("policy_denied"), policy.value.obligations)
    else AllowResponse(cfg, resolved.value, policy.value)
  }

  predicate Allowed(resolved: Result<Caller, Refusal>, policy: Result<Decision, string>) {
    resolved.Ok? && policy.Ok? && policy.value.allow
  }

  // ----------------------------------------------------------------- what responses tell

  // The header has that text, or is left out if there is none.
  predicate Tells(headers: map<Header, string>, h: Header, text: string) {
    Get(headers, h) == if text == "" then None else Some(text)
  }

  // What each header of an allow carries.
  lemma AllowTells(cfg: Config, who: Caller, decision: Decision, h: Header)
    ensures var headers := AllowResponse(cfg, who, decision).headers;
            match h
            case UserSub => Tells(headers, h, who.userId)
            case OrgId => Tells(headers, h, who.orgId)
            case SessionId => Tells(headers, h, who.sessionId)
            case UserGroups => Tells(headers, h, Join(who.groups))
            case UserRoles => Tells(headers, h, Join(who.roles))
            case UserEntitlements => Tells(headers, h, Join(who.entitlements))
            case UserScopes => Tells(headers, h, Join(Named(who.scopes)))
            case UserLabels => Tells(headers, h, cfg.host.labelsText(who.labels))
            case DecisionToken => Tells(headers, h, decision.decisionJwt.GetOr(""))
            case Reason => Tells(headers, h, decision.reason.GetOr(""))
            case Obligations => Get(headers, h) == decision.obligations
            case ErrorCode => h !in headers
            case ErrorMessage => h !in headers
  {
    var claims := Claims(who, Join(Named(who.scopes)), cfg.host.labelsText(who.labels));
    HeaderMapMeaning(claims, h);
    HeaderMapMeaning(claims, DecisionToken);
    HeaderMapMeaning(claims, Reason);
    HeaderMapMeaning(claims, Obligations);
    ExplainedMeaning(HeaderMap(claims), decision, h);
    ClaimsMeaning(who, Join(Named(who.scopes)), cfg.host.labelsText(who.labels), h);
  }

  lemma ClaimsMeaning(who: Caller, scopes: string, labels: string, h: Header)
    ensures Get(Claims(who, scopes, labels), h) ==
            match h
            case UserSub => Some(who.userId)
            case OrgId => Some(who.orgId)
            case SessionId => Some(who.sessionId)
            case UserGroups => Some(Join(who.groups))
            case UserRoles => Some(Join(who.roles))
            case UserEntitlements => Some(Join(who.entitlements))
            case UserScopes => Some(scopes)
            case UserLabels => Some(labels)
            case _ => None
  {
  }

  lemma HeaderMapMeaning(headers: map<Header, string>, h: Header)
    ensures if h in headers then Tells(HeaderMap(headers), h, headers[h]) else h !in HeaderMap(headers)
  {
  }

  lemma ExplainedMeaning(headers: map<Header, string>, decision: Decision, h: Header)
    requires DecisionToken !in headers && Reason !in headers && Obligations !in headers
    ensures var explained := Explained(headers, decision);
            match h
            case DecisionToken => Tells(explained, h, decision.decisionJwt.GetOr(""))
            case Reason => Tells(explained, h, decision.reason.GetOr(""))
            case Obligations => Get(explained, h) == decision.obligations
            case _ => Get(explained, h) == Get(headers, h)
  {
  }

  // Lists are told with a comma between their entries.
  lemma {:induction false} JoinMeaning(a: seq<string>, b: seq<string>)
    requires a != [] && b != []
    ensures Join(a + b) == Join(a) + "," + Join(b)
    ensures |a| == 1 ==> Join(a) == a[0]
  {
    if |a| == 1 {
      assert (a + b)[0] == a[0] && (a + b)[1..] == b;
    } else {
      assert (a + b)[0] == a[0] && (a + b)[1..] == a[1..] + b;
      JoinMeaning(a[1..], b);
    }
  }

  // The status is that of what went wrong, if anything did: the caller, the service or a port.
  lemma StatusMeaning(cfg: Config, resolved: Result<Caller, Refusal>, policy: Result<Decision, string>)
    ensures var r := Evaluated(cfg, resolved, policy);
            && (r.status == 200 <==> Allowed(resolved, policy))
            && (r.status == 401 <==> resolved in {Err(MissingCredentials), Err(InactiveToken), Err(InvalidApiKey)})
            && (r.status == 403 <==>
                  resolved == Err(ApiKeyInactive) || (resolved.Ok? && policy.Ok? && !policy.value.allow))
            && (r.status == 500 <==> resolved == Err(ApiKeyNotSupported))
            && (r.status == 502 <==>
                  if resolved.Ok? then policy.Err?
                  else
                    resolved.error.TokenValidation? || resolved.error.KeyLookup? || resolved.error.IdentityResolution?)
  {
  }

  // An error code is given exactly if nothing is allowed.
  lemma ErrorMeaning(cfg: Config, resolved: Result<Caller, Refusal>, policy: Result<Decision, string>)
    ensures ErrorCode in Evaluated(cfg, resolved, policy).headers <==> !Allowed(resolved, policy)
  {
    if Allowed(resolved, policy) {
      AllowTells(cfg, resolved.value, policy.value, ErrorCode);
    }
  }

  // What the policy engine has to say about a denial or a failure is passed on.
  lemma DenialMeaning(cfg: Config, who: Caller, policy: Result<Decision, string>)
    requires policy.Ok? ==> !policy.value.allow
    ensures var headers := Evaluated(cfg, Ok(who), policy).headers;
            if policy.Err?
            then Get(headers, ErrorCode) == Some("policy_error") && Tells(headers, ErrorMessage, policy.error)
            else
              && Get(headers, ErrorCode) == Some(policy.value.reason.GetOr("policy_denied"))
              && Get(headers, Obligations) == policy.value.obligations
  {
  }

  lemma RefusalMeaning(refusal: Refusal, other: Refusal)
    ensures var headers := Refused(refusal).headers;
            && ErrorCode in headers && ErrorCode in Refused(other).headers
            && (refusal.TokenValidation? || refusal.KeyLookup? || refusal.IdentityResolution? ==>
                  Tells(headers, ErrorMessage, refusal.message))
            && Obligations !in headers
    ensures Refused(refusal).headers[ErrorCode] == Refused(other).headers[ErrorCode] <==>
              match refusal
              case TokenValidation(_) => other.TokenValidation?
              case KeyLookup(_) => other.KeyLookup?
              case IdentityResolution(_) => other.IdentityResolution?
              case _ => refusal == other
  {
  }

  function GroupTags(groups: seq<string>): (tags: set<DecisionTag>)
    ensures forall tag :: tag in tags <==> tag.DecisionGroup? && tag.id in groups
  {
    if groups == [] then {}
    else GroupTags(Front(groups)) + if Last(groups) != "" then {DecisionGroup(Last(groups))} else {}
  }

  lemma GroupTagsNext(groups: seq<string>, i: nat)
    requires i < |groups|
    ensures GroupTags(groups[..i + 1]) ==
            GroupTags(groups[..i]) + if groups[i] != "" then {DecisionGroup(groups[i])} else {}
  {
    assert Front(groups[..i + 1]) == groups[..i];
  }

  function OwnTags(who: Caller): set<DecisionTag> {
    {DecisionJwt} + (if who.userId != "" then {DecisionUser(who.userId)} else {}) +
    (if who.orgId != "" then {DecisionOrg(who.orgId)} else {})
  }

  function TagsOf(who: Caller): (tags: set<DecisionTag>)
    ensures forall tag :: tag in tags <==>
              match tag
              case DecisionJwt => true
              case DecisionUser(id) => who.userId == id
              case DecisionOrg(id) => who.orgId == id
              case DecisionGroup(id) => id in who.groups
  {
    OwnTags(who) + GroupTags(who.groups)
  }

  // ------------------------------------------------------------------------ steps

  datatype CacheState = CacheState(entries: DecisionEntries, serial: nat)

  datatype Event =
    | Handled(token: Option<string>, resolved: Result<Caller, Refusal>, policy: Result<Decision, string>, at: int)
    | Changed(c: Context, at: int)  // the invalidator
    | Cleared(at: int)
    | Fired(key: string, serial: nat, at: int)  // a timer of the cache

  function Served(cfg: Config, entries: DecisionEntries, token: Option<string>, now: int): Option<Response> {
    if token.None? || token.value == "" then None
    else
      match Lookup(entries, CacheKey(cfg, token.value), now)
      case None => None
      case Some(cached) => Some(Response(200, cached.headers[DecisionToken := token.value]))
  }

  // A lookup removes what it finds expired.
  function LookedUp(cfg: Config, entries: DecisionEntries, token: Option<string>, now: int): DecisionEntries {
    if token.None? || token.value == "" then entries
    else
      var key := CacheKey(cfg, token.value);
      if key in entries && Expired(entries[key], now) then Without(entries, key) else entries
  }

  // Allowed, with a token to remember it by.
  predicate Tokened(resolved: Result<Caller, Refusal>, policy: Result<Decision, string>) {
    Allowed(resolved, policy) && policy.value.decisionJwt.Some? && policy.value.decisionJwt.value != ""
  }

  // The request is allowed by the policy engine, which hands out `token`.
  predicate Grants(cfg: Config, s: CacheState, e: Event, token: string) {
    && e.Handled? && Served(cfg, s.entries, e.token, e.at).None?
    && Tokened(e.resolved, e.policy) && e.policy.value.decisionJwt.value == token
  }

  function EntryFor(cfg: Config, e: Event, serial: nat): Entry<CachedDecision, DecisionTag>
    requires e.Handled? && Allowed(e.resolved, e.policy)
  {
    EntryOf(cfg, e.resolved.value, e.policy.value, e.at, serial)
  }

  function EntryOf(cfg: Config, who: Caller, decision: Decision, now: int, serial: nat)
    : Entry<CachedDecision, DecisionTag>
  {
    var expiresAt := now + cfg.ttlSeconds * 1000;
    Entry(CachedDecision(AllowResponse(cfg, who, decision).headers, expiresAt), Some(expiresAt), TagsOf(who), serial)
  }

  // An entry lasts as long as decisions are kept, and says until when; it carries the tags of its
  // caller and the headers of the response.
  lemma EntryMeaning(cfg: Config, who: Caller, decision: Decision, now: int, serial: nat)
    ensures var entry := EntryOf(cfg, who, decision, now, serial);
            && entry.expiresAt == Some(entry.value.expiresAt) && entry.value.expiresAt == now + 1000 * cfg.ttlSeconds
            && entry.value.headers == AllowResponse(cfg, who, decision).headers && entry.tags == TagsOf(who)
  {
  }

  function WithDecision(cfg: Config, entries: DecisionEntries, resolved: Result<Caller, Refusal>,
                        policy: Result<Decision, string>, now: int, serial: nat): DecisionEntries
  {
    if !Tokened(resolved, policy) then entries
    else
      var key := CacheKey(cfg, policy.value.decisionJwt.value);
      entries[key := EntryOf(cfg, resolved.value, policy.value, now, serial)]
  }

  // ------------------------------------------------------------------ requests as events

  // What the request gives overrides what is built for it.
  function MergedEnvironment(base: Option<Environment>, overrides: Option<Environment>): Option<Environment> {
    if base.None? && overrides.None? then None else Some(base.GetOr(map[]) + overrides.GetOr(map[]))
  }

  function QuestionFor(cfg: Config, request: Request, who: Caller): Question {
    var build := cfg.builders;
    var builtAction := if build.action.Some? then Some(build.action.value(request)) else None;
    var builtResource := if build.resource.Some? then build.resource.value(request) else None;
    var builtEnvironment := if build.environment.Some? then build.environment.value(request, who) else None;
    Question(who, request.action.GetOr(builtAction.GetOr(cfg.host.upper(request.verb) + " " + request.path)),
             request.resource.OrElse(builtResource), MergedEnvironment(builtEnvironment, request.environment))
  }

  // What is asked: of the action and the resource, what the request names, else what is built for it,
  // else its verb and path, or no resource.
  lemma QuestionMeaning(cfg: Config, request: Request, who: Caller)
    ensures var q, build := QuestionFor(cfg, request, who), cfg.builders;
            && q.who == who
            && (request.action.Some? ==> q.action == request.action.value)
            && (request.action.None? && build.action.Some? ==> q.action == build.action.value(request))
            && (request.action.None? && build.action.None? ==>
                  q.action == cfg.host.upper(request.verb) + " " + request.path)
            && (request.resource.Some? ==> q.resource == request.resource)
            && (request.resource.None? && build.resource.Some? ==> q.resource == build.resource.value(request))
            && (request.resource.None? && build.resource.None? ==> q.resource == None)
  {
  }

  // A property of the environment is what the request says it is, else what is built for it.
  lemma EnvironmentMeaning(cfg: Config, request: Request, who: Caller, name: string)
    ensures var q, given := QuestionFor(cfg, request, who), request.environment.GetOr(map[]);
            var built := if cfg.builders.environment.Some? then cfg.builders.environment.value(request, who) else None;
            && (q.environment.None? <==> request.environment.None? && built.None?)
            && Get(q.environment.GetOr(map[]), name) ==
               if name in given then Some(given[name]) else Get(built.GetOr(map[]), name)
  {
  }

  // The policy engine's answer, if it comes to that.
  ghost function Asked(cfg: Config, keys: Option<map<Id, Key>>, request: Request, world: Outside, clock: Clock)
    : Result<Decision, string>
  {
    var resolved := Resolved(keys, request, world, clock, cfg.host.lower);
    if resolved.Ok? then world.policy(QuestionFor(cfg, request, resolved.value)) else Err("")
  }

  ghost function EventOf(cfg: Config, keys: Option<map<Id, Key>>, request: Request, world: Outside, clock: Clock,
                         now: int): Event
  {
    Handled(HeldToken(request, cfg.host.lower), Resolved(keys, request, world, clock, cfg.host.lower),
            Asked(cfg, keys, request, world, clock), now)
  }

  function Answer(cfg: Config, s: CacheState, e: Event): Response
    requires e.Handled?
  {
    Served(cfg, s.entries, e.token, e.at).GetOr(Evaluated(cfg, e.resolved, e.policy))
  }

  function Step(cfg: Config, s: CacheState, e: Event): CacheState {
    match e
    case Handled(token, resolved, policy, at) =>
      var entries := LookedUp(cfg, s.entries, token, at);
      if Served(cfg, s.entries, token, at).None? && Tokened(resolved, policy)
      then CacheState(WithDecision(cfg, entries, resolved, policy, at, s.serial), s.serial + 1)
      else s.(entries := entries)
    case Changed(c, _) => s.(entries := Invalidated(s.entries, DecisionTags(c)))
    case Cleared(_) => s.(entries := map[])
    case Fired(key, serial, at) => s.(entries := AfterExpiration(s.entries, key, serial, at))
  }

  class ForwardAuthService {
    const cfg: Config
    const cache: MemoryCache?<string, CachedDecision, DecisionTag>
    const keyStore: MemoryKeyStore?

    constructor (prefix: Option<string>, ttlSeconds: Option<int>, host: Host, builders: Builders,
                 cache: MemoryCache?<string, CachedDecision, DecisionTag>, keyStore: MemoryKeyStore?)
      ensures cfg == Configured(prefix, ttlSeconds, host, builders)
      ensures this.cache == cache && this.keyStore == keyStore
    {
      cfg := Configured(prefix, ttlSeconds, host, builders);
      this.cache, this.keyStore := cache, keyStore;
    }

    ghost predicate Valid()
      reads cache
    {
      cache != null ==> cache.Valid()
    }

    ghost function State(): CacheState
      requires cache != null
      reads cache
    {
      CacheState(cache.entries, cache.nextSerial)
    }

    // A request, from its headers to the response. The cache is looked up first; only then are the
    // credentials resolved, which may use a key.
    method Handle(request: Request, world: Outside, clock: Clock, now: int) returns (r: Response)
      requires Valid() && (keyStore != null ==> keyStore.Valid())
      modifies cache, keyStore
      ensures Valid() && (keyStore != null ==> keyStore.Valid())
      ensures cache == null ==> r == Evaluated(cfg, Resolved(old(Keys()), request, world, clock, cfg.host.lower),
                                               Asked(cfg, old(Keys()), request, world, clock))
      ensures cache != null ==>
                var e := EventOf(cfg, old(Keys()), request, world, clock, now);
                && r == Answer(cfg, old(State()), e) && State() == Step(cfg, old(State()), e)
      ensures var token := HeldToken(request, cfg.host.lower);
              Keys() == if cache != null && Served(cfg, old(cache.entries), token, now).Some? then old(Keys())
                        else KeysAfter(old(Keys()), request, world, clock, cfg.host.lower)
    {
      var headers := NormalizeHeaders(request.headers, cfg.host.lower);
      var cached := TryResolveCachedDecision(Get(headers, "x-decision-jwt"), now);
      if cached.Some? {
        return cached.value;
      }
      var resolved := ResolveIdentity(keyStore, headers, request.orgId, world, clock, cfg.host.lower);
      var policy: Result<Decision, string> := Err("");
      if resolved.Ok? {
        policy := world.policy(QuestionFor(cfg, request, resolved.value));
      }
      r := Conclude(resolved, policy, now);
    }

    ghost function Keys(): Option<map<Id, Key>>
      reads keyStore
    {
      if keyStore == null then None else Some(keyStore.keys)
    }

    // From the identity and the policy engine's answer on, when nothing was served from the cache.
    method Conclude(resolved: Result<Caller, Refusal>, policy: Result<Decision, string>, now: int) returns (r: Response)
      requires Valid()
      modifies cache
      ensures Valid()
      ensures r == Evaluated(cfg, resolved, policy)
      ensures cache != null ==>
                && cache.entries == WithDecision(cfg, old(cache.entries), resolved, policy, now, old(cache.nextSerial))
                && cache.nextSerial == old(cache.nextSerial) + if Tokened(resolved, policy) then 1 else 0
    {
      if resolved.Err? {
        return Refused(resolved.error);
      }
      if policy.Err? {
        return Failure("policy_error", 502, policy.error);
      }
      var decision := policy.value;
      if !decision.allow {
        return Forbidden(decision.reason.GetOr("policy_denied"), decision.obligations);
      }
      r := BuildAllowResponse(resolved.value, decision);
      MaybeCacheDecision(resolved.value, decision, r.headers, now);
    }

    method TryResolveCachedDecision(token: Option<string>, now: int) returns (r: Option<Response>)
      requires Valid()
      modifies cache
      ensures Valid()
      ensures cache == null ==> r == None
      ensures cache != null ==>
                && r == Served(cfg, old(cache.entries), token, now)
                && cache.entries == LookedUp(cfg, old(cache.entries), token, now)
                && cache.nextSerial == old(cache.nextSerial)
    {
      if token.None? || token.value == "" || cache == null {
        return None;
      }
      var cached := cache.Get(CacheKey(cfg, token.value), now);
      if cached.None? {
        return None;
      }
      return Some(Response(200, cached.value.headers[DecisionToken := token.value]));
    }

    method BuildAllowResponse(who: Caller, decision: Decision) returns (r: Response)
      ensures r == AllowResponse(cfg, who, decision)
    {
      var scopes := Dedupe(who.scopes);
      var headers := Explain(BaseHeaders(who, Join(scopes), cfg.host.labelsText(who.labels)), decision);
      return Response(200, headers);
    }

    method Explain(base: map<Header, string>, decision: Decision) returns (headers: map<Header, string>)
      ensures headers == Explained(base, decision)
    {
      headers := base;
      UpdateIsUnion(headers, DecisionToken, decision.decisionJwt);
      if decision.decisionJwt.Some? && decision.decisionJwt.value != "" {
        headers := headers[DecisionToken := decision.decisionJwt.value];
      }
      UpdateIsUnion(headers, Reason, decision.reason);
      if decision.reason.Some? && decision.reason.value != "" {
        headers := headers[Reason := decision.reason.value];
      }
      ObligatedIsUnion(headers, decision.obligations);
      if decision.obligations.Some? {
        headers := headers[Obligations := decision.obligations.value];
      }
    }

    method TagsToCacheUnder(who: Caller) returns (tags: set<DecisionTag>)
      ensures tags == TagsOf(who)
    {
      tags := {DecisionJwt};
      if who.userId != "" {
        tags := tags + {DecisionUser(who.userId)};
      }
      if who.orgId != "" {
        tags := tags + {DecisionOrg(who.orgId)};
      }
      assert tags == OwnTags(who);
      for i := 0 to |who.groups|
        invariant tags == OwnTags(who) + GroupTags(who.groups[..i])
      {
        GroupTagsNext(who.groups, i);
        if who.groups[i] != "" {
          tags := tags + {DecisionGroup(who.groups[i])};
        }
      }
      assert who.groups[..|who.groups|] == who.groups;
    }

    method MaybeCacheDecision(who: Caller, decision: Decision, headers: map<Header, string>, now: int)
      requires Valid()
      modifies cache
      ensures Valid()
      ensures cache != null ==>
                var token := decision.decisionJwt.GetOr("");
                var expiresAt := now + cfg.ttlSeconds * 1000;
                && cache.entries == (if token == "" then old(cache.entries) else
                     old(cache.entries)[CacheKey(cfg, token) :=
                       Entry(CachedDecision(headers, expiresAt), Some(expiresAt), TagsOf(who), old(cache.nextSerial))])
                && cache.nextSerial == old(cache.nextSerial) + if token == "" then 0 else 1
    {
      if decision.decisionJwt.None? || decision.decisionJwt.value == "" || cache == null {
        return;
      }
      var tags := TagsToCacheUnder(who);
      cache.Set(CacheKey(cfg, decision.decisionJwt.value), CachedDecision(headers, now + cfg.ttlSeconds * 1000),
                Some(cfg.ttlSeconds), tags, now);
    }
  }

  // --------------------------------------------------------------------- whole runs

  function Run(cfg: Config, run: seq<Event>): CacheState {
    if run == [] then CacheState(map[], 0) else Step(cfg, Run(cfg, Front(run)), Last(run))
  }

  ghost predicate ClockNondecreasing(run: seq<Event>, now: int) {
    && (forall i, j :: 0 <= i < j < |run| ==> run[i].at <= run[j].at)
    && (forall i :: 0 <= i < |run| ==> run[i].at <= now)
  }

  ghost predicate GrantedAt(cfg: Config, run: seq<Event>, i: nat, token: string) {
    i < |run| && Grants(cfg, Run(cfg, run[..i]), run[i], token)
  }

  // The event takes away a decision for that caller, or replaces the one of that token.
  ghost predicate EndsAt(cfg: Config, run: seq<Event>, j: nat, token: string, who: Caller) {
    && j < |run|
    && (GrantedAt(cfg, run, j, token)
        || run[j].Cleared?
        || (run[j].Changed? && (DecisionTags(run[j].c) == {} || DecisionTags(run[j].c) * TagsOf(who) != {})))
  }

  // Event i is the latest allow with the token, and nothing has taken it away since.
  ghost predicate Stands(cfg: Config, run: seq<Event>, token: string, i: nat) {
    GrantedAt(cfg, run, i, token) &&
    forall j: nat :: i < j < |run| ==> !EndsAt(cfg, run, j, token, run[i].resolved.value)
  }

  // Which changes take away a decision: those of its user, its organisation or one of its groups.
  lemma ChangeEndsMeaning(c: Context, who: Caller)
    ensures DecisionTags(c) * TagsOf(who) != {} <==> Touches(c, who)
  {
    if c.userId == Some(who.userId) {
      assert DecisionUser(c.userId.value) in DecisionTags(c) * TagsOf(who);
    }
    if c.orgId == Some(who.orgId) {
      assert DecisionOrg(c.orgId.value) in DecisionTags(c) * TagsOf(who);
    }
    if id :| id in c.groupIds && id in who.groups {
      assert DecisionGroup(id) in DecisionTags(c) * TagsOf(who);
    }
  }

  // The entry of an allow, up to its number.
  predicate IsFor(cfg: Config, entry: Entry<CachedDecision, DecisionTag>, e: Event) {
    e.Handled? && Allowed(e.resolved, e.policy) && entry == EntryFor(cfg, e, entry.serial)
  }

  ghost predicate Fresh(cfg: Config, e: Event, now: int) {
    now < e.at + cfg.ttlSeconds * 1000
  }

  // What is stored stands; what stands is stored, or is too old.
  ghost predicate Accounted(cfg: Config, run: seq<Event>, now: int, token: string) {
    var entries, key := Run(cfg, run).entries, CacheKey(cfg, token);
    && (key in entries ==> exists i: nat :: Stands(cfg, run, token, i) && IsFor(cfg, entries[key], run[i]))
    && (forall i: nat :: Stands(cfg, run, token, i) && Fresh(cfg, run[i], now) ==>
          key in entries && IsFor(cfg, entries[key], run[i]))
  }

  lemma SamePast(cfg: Config, run: seq<Event>, i: nat, token: string, who: Caller)
    requires run != [] && i < |run| - 1
    ensures EndsAt(cfg, Front(run), i, token, who) <==> EndsAt(cfg, run, i, token, who)
  {
    assert Front(run)[..i] == run[..i];
  }

  lemma SameGrant(cfg: Config, run: seq<Event>, i: nat, token: string)
    requires run != [] && i < |run| - 1
    ensures GrantedAt(cfg, Front(run), i, token) <==> GrantedAt(cfg, run, i, token)
  {
    assert Front(run)[..i] == run[..i];
  }

  lemma StandsStep(cfg: Config, run: seq<Event>, token: string, i: nat)
    requires run != [] && i < |run| - 1
    ensures Stands(cfg, run, token, i) <==>
            Stands(cfg, Front(run), token, i) && !EndsAt(cfg, run, |run| - 1, token, run[i].resolved.value)
  {
    SameGrant(cfg, run, i, token);
    if GrantedAt(cfg, run, i, token) {
      var who := run[i].resolved.value;
      forall j: nat | j < |run| - 1
        ensures EndsAt(cfg, Front(run), j, token, who) <==> EndsAt(cfg, run, j, token, who)
      {
        SamePast(cfg, run, j, token, who);
      }
    }
  }

  // What one event does to the entry of one token.
  lemma OneEntry(cfg: Config, run: seq<Event>, token: string)
    requires run != [] && token != ""
    ensures var n, key := |run| - 1, CacheKey(cfg, token);
            var before, after := Run(cfg, Front(run)).entries, Run(cfg, run).entries;
            if GrantedAt(cfg, run, n, token) then key in after && IsFor(cfg, after[key], run[n])
            else
              && (key in after ==> key in before && after[key] == before[key])
              && (key in before && key !in after && !Expired(before[key], run[n].at) ==>
                    || run[n].Cleared?
                    || (&& run[n].Changed?
                        && (DecisionTags(run[n].c) == {} || DecisionTags(run[n].c) * before[key].tags != {})))
              && (key in after && run[n].Changed? ==>
                    DecisionTags(run[n].c) != {} && DecisionTags(run[n].c) * before[key].tags == {})
              && (key in after ==> !run[n].Cleared?)
  {
    var last, before := Last(run), Run(cfg, Front(run));
    assert run[..|run| - 1] == Front(run);
    if last.Handled? && Tokened(last.resolved, last.policy) {
      CacheKeysDiffer(cfg, last.policy.value.decisionJwt.value, token);
    }
  }

  lemma {:induction false} EveryEntryAccounted(cfg: Config, run: seq<Event>, now: int, token: string)
    requires ClockNondecreasing(run, now) && token != ""
    ensures Accounted(cfg, run, now, token)
  {
    if run != [] {
      var n, key := |run| - 1, CacheKey(cfg, token);
      var before, after := Run(cfg, Front(run)).entries, Run(cfg, run).entries;
      EveryEntryAccounted(cfg, Front(run), run[n].at, token);
      OneEntry(cfg, run, token);
      if GrantedAt(cfg, run, n, token) {
        assert Stands(cfg, run, token, n);
        forall i: nat | Stands(cfg, run, token, i) ensures i == n {
          assert i < n ==> EndsAt(cfg, run, n, token, run[i].resolved.value);
        }
      } else {
        if key in after {
          var i: nat :| Stands(cfg, Front(run), token, i) && IsFor(cfg, before[key], Front(run)[i]);
          StandsStep(cfg, run, token, i);
          assert Stands(cfg, run, token, i);
        }
        forall i: nat | Stands(cfg, run, token, i) && Fresh(cfg, run[i], now)
          ensures key in after && IsFor(cfg, after[key], run[i])
        {
          StandsStep(cfg, run, token, i);
          assert Front(run)[i] == run[i];
        }
      }
    }
  }

  lemma FullHeaders(cfg: Config, e: Event, token: string)
    requires e.Handled? && Tokened(e.resolved, e.policy) && e.policy.value.decisionJwt.value == token
    ensures var headers := AllowResponse(cfg, e.resolved.value, e.policy.value).headers;
            headers[DecisionToken := token] == headers
  {
  }

  // The cache serves a response for a token exactly when it is, in full, the one that the latest
  // allow with that token built, less than the time to live ago, with no change of the user, the
  // organisation or a group of that decision and no clearing in between.
  lemma ServedExact(cfg: Config, run: seq<Event>, now: int, token: string, r: Response)
    requires ClockNondecreasing(run, now)
    ensures Served(cfg, Run(cfg, run).entries, Some(token), now) == Some(r) <==>
            exists i: nat :: Stands(cfg, run, token, i) && Fresh(cfg, run[i], now)
                             && r == AllowResponse(cfg, run[i].resolved.value, run[i].policy.value)
  {
    if token != "" {
      EveryEntryAccounted(cfg, run, now, token);
      if Served(cfg, Run(cfg, run).entries, Some(token), now) == Some(r) {
        ServedStands(cfg, run, now, token);
      }
      if i: nat :| Stands(cfg, run, token, i) && Fresh(cfg, run[i], now)
                   && r == AllowResponse(cfg, run[i].resolved.value, run[i].policy.value) {
        StandingServed(cfg, run, now, token, i);
      }
    }
  }

  lemma ServedStands(cfg: Config, run: seq<Event>, now: int, token: string)
    requires token != "" && Accounted(cfg, run, now, token)
    ensures var served := Served(cfg, Run(cfg, run).entries, Some(token), now);
            served.Some? ==>
              exists i: nat :: Stands(cfg, run, token, i) && Fresh(cfg, run[i], now)
                               && served.value == AllowResponse(cfg, run[i].resolved.value, run[i].policy.value)
  {
    if Served(cfg, Run(cfg, run).entries, Some(token), now).Some? {
      var entry := Run(cfg, run).entries[CacheKey(cfg, token)];
      var i: nat :| Stands(cfg, run, token, i) && IsFor(cfg, entry, run[i]);
      FullHeaders(cfg, run[i], token);
    }
  }

  lemma StandingServed(cfg: Config, run: seq<Event>, now: int, token: string, i: nat)
    requires token != "" && Accounted(cfg, run, now, token)
    ensures Stands(cfg, run, token, i) && Fresh(cfg, run[i], now) ==>
              Served(cfg, Run(cfg, run).entries, Some(token), now) ==
              Some(AllowResponse(cfg, run[i].resolved.value, run[i].policy.value))
  {
    if Stands(cfg, run, token, i) {
      FullHeaders(cfg, run[i], token);
    }
  }

  // Whatever the key store has been through since a revocation was asked for, a request whose secret
  // is that key's is forbidden and uses nothing, unless a decision is served from the cache.
  lemma RevokedKeyIsForbidden(cfg: Config, t: KeyStore.Table, run: seq<KeyStore.Event>, id: Id, request: Request,
                              world: Outside, clock: Clock)
    requires id in t && UniqueHashes(t) && RevokedIn(run, id) && world.lookupError.None?
    requires var credentials := ExtractCredentials(Normalized(request.headers, cfg.host.lower), cfg.host.lower);
             credentials.ApiKey? && world.hashKey(credentials.secret) == t[id].hash
    ensures var keys := Some(KeyStore.Run(t, run));
            && Resolved(keys, request, world, clock, cfg.host.lower) == Err(ApiKeyInactive)
            && KeysAfter(keys, request, world, clock, cfg.host.lower) == keys
            && forall policy :: Evaluated(cfg, Resolved(keys, request, world, clock, cfg.host.lower), policy) ==
                                Forbidden("api_key_inactive", None)
  {
    var after := KeyStore.Run(t, run);
    KeyAfter(t, run, id);
    HashesStayUnique(t, run);
    var headers := Normalized(request.headers, cfg.host.lower);
    var org := request.orgId.OrElse(Get(headers, "x-catalyst-org"));
    RevokedSecret(after, id, ExtractCredentials(headers, cfg.host.lower).secret, org, world, clock);
  }

  // A token that the identity provider finds inactive, or without a subject, is unauthorized, whatever
  // the policy engine would say.
  lemma InactiveTokenIsUnauthorized(cfg: Config, keys: Option<map<Id, Key>>, request: Request, world: Outside,
                                    clock: Clock, token: string)
    requires ExtractCredentials(Normalized(request.headers, cfg.host.lower), cfg.host.lower) == AccessToken(token)
    requires var v := world.validate(token);
             v.Ok? && !(v.value.active && v.value.subject.Some? && v.value.subject.value != "")
    ensures KeysAfter(keys, request, world, clock, cfg.host.lower) == keys
    ensures forall policy :: Evaluated(cfg, Resolved(keys, request, world, clock, cfg.host.lower), policy) ==
                             Response(401, map[ErrorCode := "inactive_token"])
  {
    ResolvedMeaning(keys, request, world, clock, cfg.host.lower);
  }

  // What a 200 rests on when the cache does not serve it: an active token with a subject, or a stored
  // key of that secret that is alive; and an allow of the policy engine for the identity built from it.
  lemma OkMeaning(cfg: Config, keys: Option<map<Id, Key>>, request: Request, world: Outside, clock: Clock)
    ensures var resolved := Resolved(keys, request, world, clock, cfg.host.lower);
            Evaluated(cfg, resolved, Asked(cfg, keys, request, world, clock)).status == 200 <==>
            && resolved.Ok?
            && var answer := world.policy(QuestionFor(cfg, request, resolved.value)); answer.Ok? && answer.value.allow
    ensures var resolved := Resolved(keys, request, world, clock, cfg.host.lower);
            var headers := Normalized(request.headers, cfg.host.lower);
            resolved.Ok? ==>
              match ExtractCredentials(headers, cfg.host.lower)
              case NoCredentials => false
              case AccessToken(token) =>
                var v := world.validate(token);
                && v.Ok? && v.value.active && v.value.subject.Some? && v.value.subject.value != ""
                && var org := if request.orgId.Some? then request.orgId else Get(headers, "x-catalyst-org");
                   Ok(resolved.value) == world.buildIdentity(v.value.subject.value, org)
              case ApiKey(secret) =>
                keys.Some? && exists id :: HasHash(keys.value, id, world.hashKey(secret))
                                           && StatusOf(keys.value[id], clock.read) == Active
  {
    StatusMeaning(cfg, Resolved(keys, request, world, clock, cfg.host.lower), Asked(cfg, keys, request, world, clock));
    ResolvedMeaning(keys, request, world, clock, cfg.host.lower);
  }

  // Every 200 response of a run was allowed by the policy engine: on this very request, or on an
  // earlier one that still stands.
  lemma EveryOkIsAllowed(cfg: Config, run: seq<Event>, e: Event)
    requires e.Handled? && ClockNondecreasing(run, e.at)
    ensures Answer(cfg, Run(cfg, run), e).status == 200 ==>
            || Allowed(e.resolved, e.policy)
            || (&& e.token.Some?
                && exists i: nat :: && Stands(cfg, run, e.token.value, i) && Fresh(cfg, run[i], e.at)
                                    && Answer(cfg, Run(cfg, run), e) == Answer(cfg, Run(cfg, run[..i]), run[i]))
  {
    var served := Served(cfg, Run(cfg, run).entries, e.token, e.at);
    if served.Some? {
      ServedExact(cfg, run, e.at, e.token.value, served.value);
    }
  }

  // Whether a change is one of the caller's user, organisation or groups.
  ghost predicate Touches(c: Context, who: Caller) {
    || c.userId == Some(who.userId)
    || c.orgId == Some(who.orgId)
    || exists id :: id in c.groupIds && id in who.groups
  }

  // Whatever is served after a change was granted after it, or to a caller it does not touch.
  lemma NothingTouchedIsServed(cfg: Config, run: seq<Event>, c: Context, at: int, later: seq<Event>, now: int,
                               token: string, r: Response)
    requires ClockNondecreasing(run + [Changed(c, at)] + later, now)
    requires Served(cfg, Run(cfg, run + [Changed(c, at)] + later).entries, Some(token), now) == Some(r)
    ensures var whole := run + [Changed(c, at)] + later;
            exists j: nat :: && Stands(cfg, whole, token, j) && Fresh(cfg, whole[j], now)
                             && r == AllowResponse(cfg, whole[j].resolved.value, whole[j].policy.value)
                             && (j > |run| || !Touches(c, whole[j].resolved.value))
  {
    var whole := run + [Changed(c, at)] + later;
    ServedExact(cfg, whole, now, token, r);
    var j: nat :| Stands(cfg, whole, token, j) && Fresh(cfg, whole[j], now)
                  && r == AllowResponse(cfg, whole[j].resolved.value, whole[j].policy.value);
    assert whole[|run|] == Changed(c, at);
    if j < |run| {
      ChangeEndsMeaning(c, whole[j].resolved.value);
      assert !EndsAt(cfg, whole, |run|, token, whole[j].resolved.value);
    }
  }

  // Once the caller that a token was last granted to has changed, nothing is served for the token
  // until the policy engine grants it again, however long the run goes on.
  lemma ChangeIsSeenAtOnce(cfg: Config, run: seq<Event>, c: Context, at: int, later: seq<Event>, now: int,
                           token: string, i: nat, r: Response)
    requires ClockNondecreasing(run + [Changed(c, at)] + later, now)
    requires GrantedAt(cfg, run, i, token) && Touches(c, run[i].resolved.value)
    requires forall j: nat :: i < j ==> !GrantedAt(cfg, run, j, token)
    requires Served(cfg, Run(cfg, run + [Changed(c, at)] + later).entries, Some(token), now) == Some(r)
    ensures var whole := run + [Changed(c, at)] + later;
            exists j: nat :: && |run| < j && GrantedAt(cfg, whole, j, token)
                             && r == AllowResponse(cfg, whole[j].resolved.value, whole[j].policy.value)
  {
    var whole := run + [Changed(c, at)] + later;
    NothingTouchedIsServed(cfg, run, c, at, later, now, token, r);
    var j: nat :| Stands(cfg, whole, token, j) && Fresh(cfg, whole[j], now)
                  && r == AllowResponse(cfg, whole[j].resolved.value, whole[j].policy.value)
                  && (j > |run| || !Touches(c, whole[j].resolved.value));
    if j < |run| {
      StandingIsLatest(cfg, run, whole, token, i, j);
    }
  }

  // Of the grants in an earlier part of a run, only the latest can still stand.
  lemma StandingIsLatest(cfg: Config, run: seq<Event>, whole: seq<Event>, token: string, i: nat, j: nat)
    requires run <= whole && j < |run| && Stands(cfg, whole, token, j)
    requires GrantedAt(cfg, run, i, token) && forall k: nat :: i < k ==> !GrantedAt(cfg, run, k, token)
    ensures i == j
  {
    EarlierGrant(cfg, run, whole, i, token);
    EarlierGrant(cfg, run, whole, j, token);
    assert !(j < i) by {
      if j < i {
        assert EndsAt(cfg, whole, i, token, whole[j].resolved.value);
      }
    }
  }

  lemma EarlierGrant(cfg: Config, run: seq<Event>, whole: seq<Event>, k: nat, token: string)
    requires run <= whole && k < |run|
    ensures GrantedAt(cfg, whole, k, token) <==> GrantedAt(cfg, run, k, token)
  {
    assert whole[..k] == run[..k];
  }
}
