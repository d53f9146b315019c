/**
 From a request to an identity: headers, credentials, access tokens and API keys. What the identity
 provider, the hash function and the policy engine answer is given by an `Outside`.
 */
module Credentials {
  import opened Prelude
  import opened Contracts
  import opened Glob
  import Policy
  import opened KeyStore

  datatype Caller = Caller(
    userId: string, orgId: string, sessionId: string, groups: seq<string>, labels: LabelSet,
    roles: seq<string>, entitlements: seq<string>, scopes: seq<string>)

  // Why no identity came of the credentials.
  datatype Refusal =
    | MissingCredentials | InactiveToken | InvalidApiKey | ApiKeyInactive | ApiKeyNotSupported
    | TokenValidation(message: string) | KeyLookup(message: string) | IdentityResolution(message: string)

  type Headers = seq<(string, Option<string>)>

  datatype Request = Request(
    headers: Headers, verb: string, path: string, orgId: Option<string>,
    action: Option<string>, resource: Option<Policy.Resource>, environment: Option<Policy.Environment>)

  // What the policy engine is asked.
  datatype Question = Question(
    who: Caller, action: string, resource: Option<Policy.Resource>, environment: Option<Policy.Environment>)

  datatype Validation = Validation(active: bool, subject: Option<string>)

  // `lookupError` is a failure of the key store.
  datatype Outside = Outside(
    validate: string -> Result<Validation, string>,
    buildIdentity: (string, Option<string>) -> Result<Caller, string>,
    hashKey: string -> string, lookupError: Option<string>,
    policy: Question -> Result<Policy.Decision, string>)

  // The clock as the key store reads it for the record, as the service reads it to check the key and
  // to record its use, and as the store reads it for that and for its answer.
  datatype Clock = Clock(read: int, check: int, used: int, recorded: int, reported: int)

  // ---------------------------------------------------------------------- headers

  predicate HasName(header: (string, Option<string>), name: string, lower: string -> string) {
    lower(header.0) == name && header.1.Some? && header.1.value != ""
  }

  function Normalized(headers: Headers, lower: string -> string): map<string, string> {
    if headers == [] then map[]
    else
      var rest, header := Normalized(Front(headers), lower), Last(headers);
      if header.1.Some? && header.1.value != "" then rest[lower(header.0) := header.1.value] else rest
  }

  method NormalizeHeaders(headers: Headers, lower: string -> string) returns (normalized: map<string, string>)
    ensures normalized == Normalized(headers, lower)
  {
    normalized := map[];
    for i := 0 to |headers|
      invariant normalized == Normalized(headers[..i], lower)
    {
      assert Front(headers[..i + 1]) == headers[..i];
      if headers[i].1.Some? && headers[i].1.value != "" {
        normalized := normalized[lower(headers[i].0) := headers[i].1.value];
      }
    }
    assert headers[..|headers|] == headers;
  }

  // Header i is the last one with a value whose name is `name` in lower case.
  ghost predicate LastNamed(headers: Headers, name: string, lower: string -> string, i: nat) {
    && i < |headers| && HasName(headers[i], name, lower)
    && forall j :: i < j < |headers| ==> !HasName(headers[j], name, lower)
  }

  // A normalised name is there exactly when some header carries it, with the value of the last that does.
  lemma {:induction false} LastNamedWins(headers: Headers, name: string, lower: string -> string)
    ensures name in Normalized(headers, lower) <==> exists i: nat :: LastNamed(headers, name, lower, i)
    ensures forall i: nat :: LastNamed(headers, name, lower, i) ==>
              name in Normalized(headers, lower) && Normalized(headers, lower)[name] == headers[i].1.value
  {
    if headers != [] {
      LastNamedWins(Front(headers), name, lower);
      var n := |headers| - 1;
      if HasName(headers[n], name, lower) {
        assert LastNamed(headers, name, lower, n);
      } else {
        assert forall i: nat :: LastNamed(headers, name, lower, i) <==> LastNamed(Front(headers), name, lower, i);
      }
    }
  }

  ghost function HeldToken(request: Request, lower: string -> string): Option<string> {
    Get(Normalized(request.headers, lower), "x-decision-jwt")
  }

  // The token held is that of the last header of that name which has a value.
  lemma HeldTokenMeaning(request: Request, lower: string -> string, i: nat)
    requires LastNamed(request.headers, "x-decision-jwt", lower, i)
    ensures HeldToken(request, lower) == request.headers[i].1
  {
    LastNamedWins(request.headers, "x-decision-jwt", lower);
  }

  // ------------------------------------------------------------------- credentials

  datatype Credentials = NoCredentials | AccessToken(token: string) | ApiKey(secret: string)

  function WordEnd(s: string): (n: nat)
    ensures n <= |s| && (forall i :: 0 <= i < n ==> !IsSpace(s[i])) && (n < |s| ==> IsSpace(s[n]))
  {
    if s == "" || IsSpace(s[0]) then 0 else 1 + WordEnd(s[1..])
  }

  lemma {:induction false} TrimStartShortens(s: string)
    ensures |TrimStart(s)| <= |s| && (s != "" && IsSpace(s[0]) ==> |TrimStart(s)| < |s|)
  {
    if s != "" && IsSpace(s[0]) {
      TrimStartShortens(s[1..]);
    }
  }

  // A trimmed text, split at its runs of spaces.
  function Words(s: string): (words: seq<string>)
    ensures words != []
    decreases |s|
  {
    var n := WordEnd(s);
    if n == |s| then [s]
    else
      TrimStartShortens(s[n..]);
      [s[..n]] + Words(TrimStart(s[n..]))
  }

  function Spaced(words: seq<string>): string {
    if words == [] then "" else if |words| == 1 then words[0] else words[0] + " " + Spaced(words[1..])
  }

  function ExtractCredentials(headers: map<string, string>, lower: string -> string): Credentials {
    var apiKey, authorization := Get(headers, "x-api-key"), Get(headers, "authorization");
    if apiKey.Some? && Trim(apiKey.value) != "" then ApiKey(Trim(apiKey.value))
    else if authorization.None? || authorization.value == "" then NoCredentials
    else
      var words := Words(Trim(authorization.value));
      if words[0] == "" || |words| == 1 then NoCredentials
      else
        var scheme, value := lower(words[0]), Spaced(words[1..]);
        if scheme == "bearer" then AccessToken(value)
        else if scheme == "key" then ApiKey(value)
        else NoCredentials
  }

  // A key in its own header goes before everything in the other one.
  lemma KeyHeaderFirst(headers: map<string, string>, lower: string -> string)
    requires "x-api-key" in headers && Trim(headers["x-api-key"]) != ""
    ensures ExtractCredentials(headers, lower) == ApiKey(Trim(headers["x-api-key"]))
  {
  }

  predicate Solid(s: string) {
    s != "" && forall c <- s :: !IsSpace(c)
  }

  lemma {:induction false} SolidWord(s: string, rest: string)
    requires forall c <- s :: !IsSpace(c)
    requires rest != "" ==> IsSpace(rest[0])
    ensures WordEnd(s + rest) == |s|
  {
    if s == "" {
      assert s + rest == rest;
    } else {
      assert (s + rest)[0] == s[0] && (s + rest)[1..] == s[1..] + rest;
      SolidWord(s[1..], rest);
    }
  }

  lemma TwoWords(scheme: string, value: string)
    requires Solid(scheme) && Solid(value)
    ensures Trim(scheme + " " + value) == scheme + " " + value
    ensures Words(scheme + " " + value) == [scheme, value]
  {
    var s := scheme + " " + value;
    assert s[0] == scheme[0] && Last(s) == Last(value);
    assert s == scheme + (" " + value);
    SolidWord(scheme, " " + value);
    assert s[|scheme|..] == " " + value;
    assert (" " + value)[1..] == value && TrimStart(value) == value;
    SolidWord(value, "");
    assert value + "" == value;
  }

  // A scheme and a value without spaces are taken apart again, whatever the case of the scheme; an
  // API-key header goes first.
  lemma CredentialsReadBack(headers: map<string, string>, lower: string -> string, scheme: string, value: string)
    requires Solid(scheme) && Solid(value) && Get(headers, "authorization") == Some(scheme + " " + value)
    requires "x-api-key" in headers ==> Trim(headers["x-api-key"]) == ""
    ensures ExtractCredentials(headers, lower) ==
            if lower(scheme) == "bearer" then AccessToken(value)
            else if lower(scheme) == "key" then ApiKey(value) else NoCredentials
  {
    TwoWords(scheme, value);
    assert scheme + " " + value != "";
    assert [scheme, value][1..] == [value];
  }

  // Several words after the scheme are one value, a space between each two.
  lemma ManyWordsReadBack(headers: map<string, string>, lower: string -> string, scheme: string, values: seq<string>)
    requires Solid(scheme) && values != [] && forall v <- values :: Solid(v)
    requires Get(headers, "authorization") == Some(Spaced([scheme] + values))
    requires "x-api-key" in headers ==> Trim(headers["x-api-key"]) == ""
    ensures ExtractCredentials(headers, lower) ==
            if lower(scheme) == "bearer" then AccessToken(Spaced(values))
            else if lower(scheme) == "key" then ApiKey(Spaced(values)) else NoCredentials
  {
    var words := [scheme] + values;
    SpacedWords(words);
    assert words[1..] == values;
  }

  lemma {:induction false} SpacedWords(words: seq<string>)
    requires words != [] && forall w <- words :: Solid(w)
    ensures Spaced(words) != "" && !IsSpace(Spaced(words)[0]) && !IsSpace(Last(Spaced(words)))
    ensures Trim(Spaced(words)) == Spaced(words) && Words(Spaced(words)) == words
  {
    assert Solid(words[0]);
    if |words| == 1 {
      SolidWord(words[0], "");
      assert words[0] + "" == words[0];
    } else {
      SpacedWords(words[1..]);
      WordInFront(words[0], Spaced(words[1..]));
      assert words == [words[0]] + words[1..];
    }
  }

  lemma WordInFront(first: string, rest: string)
    requires Solid(first) && rest != "" && !IsSpace(rest[0]) && !IsSpace(Last(rest))
    ensures var s := first + " " + rest;
            && Words(s) == [first] + Words(rest)
            && s != "" && !IsSpace(s[0]) && !IsSpace(Last(s)) && Trim(s) == s
  {
    var s := first + (" " + rest);
    SolidWord(first, " " + rest);
    assert s == first + " " + rest;
    assert s[|first|..] == " " + rest && (" " + rest)[1..] == rest;
    assert TrimStart(rest) == rest;
    assert s[0] == first[0] && Last(s) == Last(rest);
  }

  // ------------------------------------------------------------------ access tokens

  function TokenIdentity(token: string, orgId: Option<string>, world: Outside): Result<Caller, Refusal> {
    match world.validate(token)
    case Err(m) => Err(TokenValidation(m))
    case Ok(v) =>
      if !v.active || v.subject.None? || v.subject.value == "" then Err(InactiveToken)
      else
        match world.buildIdentity(v.subject.value, orgId)
        case Err(m) => Err(IdentityResolution(m))
        case Ok(who) => Ok(who)
  }

  // An access token gives an identity only if the provider finds it active and names its subject, and
  // then the one that the provider builds for that subject; it tells why not.
  lemma TokenMeaning(token: string, orgId: Option<string>, world: Outside)
    ensures var r, v := TokenIdentity(token, orgId, world), world.validate(token);
            var live := v.Ok? && v.value.active && v.value.subject.Some? && v.value.subject.value != "";
            && (r.Ok? <==> live && world.buildIdentity(v.value.subject.value, orgId).Ok?)
            && (r.Ok? ==> Ok(r.value) == world.buildIdentity(v.value.subject.value, orgId))
            && (v.Err? ==> r == Err(TokenValidation(v.error)))
            && (v.Ok? && !live ==> r == Err(InactiveToken))
            && (live && r.Err? ==>
                  r == Err(IdentityResolution(world.buildIdentity(v.value.subject.value, orgId).error)))
  {
  }

  // ----------------------------------------------------------------------- API keys

  predicate NonEmpty(s: string) { s != "" }

  function Named(scopes: seq<string>): seq<string> {
    FirstOccurrences(Filter(NonEmpty, scopes))
  }

  lemma {:induction false} FilterAppend<T>(p: T -> bool, s: seq<T>, x: T)
    ensures Filter(p, s + [x]) == Filter(p, s) + if p(x) then [x] else []
  {
    if s != [] {
      assert (s + [x])[0] == s[0] && (s + [x])[1..] == s[1..] + [x];
      FilterAppend(p, s[1..], x);
    }
  }

  lemma NamedAppend(values: seq<string>, x: string)
    ensures Named(values + [x]) == Named(values) + if x == "" || x in Named(values) then [] else [x]
  {
    var before := Filter(NonEmpty, values);
    FilterAppend(NonEmpty, values, x);
    FirstOccurrencesMeaning(before);
    if x == "" {
      assert before + [] == before;
    } else {
      NewOnesAppend({}, before, [x]);
      assert [x][1..] == [];
      assert {} + Elements(before) == Elements(before);
    }
  }

  method Dedupe(values: seq<string>) returns (unique: seq<string>)
    ensures unique == Named(values)
    ensures Distinct(unique) && forall v :: v in unique <==> v in values && v != ""
  {
    unique := [];
    for i := 0 to |values|
      invariant unique == Named(values[..i])
      invariant forall v :: v in unique <==> v in values[..i] && v != ""
    {
      assert values[..i + 1] == values[..i] + [values[i]];
      NamedAppend(values[..i], values[i]);
      if values[i] != "" && values[i] !in unique {
        unique := unique + [values[i]];
      }
    }
    assert values[..|values|] == values;
    FirstOccurrencesMeaning(Filter(NonEmpty, values));
  }

  function MergedWithKey(who: Caller, key: Key): Caller {
    who.(labels := who.labels + key.labels, scopes := Named(who.scopes + key.scopes))
  }

  function CallerOfKey(key: Key, orgId: string): Caller {
    Caller("key:" + key.id, if key.owner.kind == OrgOwner then key.owner.id else orgId, "", [],
           key.labels, [], [], Named(key.scopes))
  }

  // Who a request with the stored key comes from; `owner` is what the provider builds for its owner.
  function KeyIdentity(key: Key, orgId: string, owner: Result<Caller, string>, clock: Clock): Result<Caller, Refusal> {
    if !Honoured(Record(key, clock.read), clock.check) then Err(ApiKeyInactive)
    else if key.owner.kind != UserOwner then Ok(CallerOfKey(key, orgId))
    else if owner.Err? then Err(IdentityResolution(owner.error))
    else Ok(MergedWithKey(owner.value, key))
  }

  function OwnerOf(key: Key, orgId: Option<string>, world: Outside): Result<Caller, string> {
    world.buildIdentity(key.owner.id, orgId)
  }

  // What a secret resolves to, given the stored keys.
  ghost function SecretIdentity(keys: Option<map<Id, Key>>, secret: string, orgId: Option<string>, world: Outside,
                                clock: Clock): Result<Caller, Refusal>
  {
    var hash := world.hashKey(secret);
    if keys.None? then Err(ApiKeyNotSupported)
    else if world.lookupError.Some? then Err(KeyLookup(world.lookupError.value))
    else if !exists id :: HasHash(keys.value, id, hash) then Err(InvalidApiKey)
    else
      var key := keys.value[Holder(keys.value, hash)];
      KeyIdentity(key, orgId.GetOr(""), OwnerOf(key, orgId, world), clock)
  }

  ghost predicate HasHash(keys: map<Id, Key>, id: Id, hash: string) {
    id in keys && keys[id].hash == hash
  }

  ghost function Holder(keys: map<Id, Key>, hash: string): (id: Id)
    requires exists id :: HasHash(keys, id, hash)
    ensures HasHash(keys, id, hash)
  {
    var id :| HasHash(keys, id, hash);
    id
  }

  // And what it leaves of them: one use more of the key, if an identity came of it and the store
  // still finds it alive.
  ghost function SecretUsed(keys: Option<map<Id, Key>>, secret: string, orgId: Option<string>, world: Outside,
                            clock: Clock): Option<map<Id, Key>>
  {
    if SecretIdentity(keys, secret, orgId, world, clock).Err? then keys
    else
      var id := Holder(keys.value, world.hashKey(secret));
      if StatusOf(keys.value[id], clock.recorded) != Active then keys
      else Some(keys.value[id := Used(keys.value[id], clock.used)])
  }

  // Who comes of a key: its user, with the key's labels over their own and the scopes of both; or the
  // key itself, for its organisation or the one asked for.
  lemma KeyCallerMeaning(key: Key, orgId: string, owner: Result<Caller, string>, clock: Clock)
    requires KeyIdentity(key, orgId, owner, clock).Ok?
    ensures var who := KeyIdentity(key, orgId, owner, clock).value;
            && (key.owner.kind == UserOwner ==>
                  && owner.Ok?
                  && who == owner.value.(labels := who.labels, scopes := who.scopes)
                  && (forall name :: Get(who.labels, name) ==
                        if name in key.labels then Some(key.labels[name]) else Get(owner.value.labels, name))
                  && forall s :: s in who.scopes <==> s != "" && (s in owner.value.scopes || s in key.scopes))
            && (key.owner.kind != UserOwner ==>
                  && who.userId == "key:" + key.id
                  && who.orgId == (if key.owner.kind == OrgOwner then key.owner.id else orgId)
                  && who.sessionId == "" && who.groups == who.roles == who.entitlements == []
                  && who.labels == key.labels && forall s :: s in who.scopes <==> s != "" && s in key.scopes)
  {
    NamedMeaning(key.scopes);
    if key.owner.kind == UserOwner {
      NamedMeaning(owner.value.scopes + key.scopes);
    }
  }

  lemma NamedMeaning(values: seq<string>)
    ensures forall v :: v in Named(values) <==> v != "" && v in values
  {
    FirstOccurrencesMeaning(Filter(NonEmpty, values));
    FilterMeaning(values);
  }

  lemma {:induction false} FilterMeaning(values: seq<string>)
    ensures forall v :: v in Filter(NonEmpty, values) <==> v != "" && v in values
  {
    if values != [] {
      FilterMeaning(values[1..]);
      assert values == [values[0]] + values[1..];
    }
  }

  // A key is refused unless the store reports it active at the reading, and its expiry, if it has
  // one, can be read and lies after the check.
  lemma KeyRefusalMeaning(key: Key, orgId: string, owner: Result<Caller, string>, clock: Clock)
    ensures KeyIdentity(key, orgId, owner, clock) == Err(ApiKeyInactive) <==>
            || StatusOf(key, clock.read) != Active
            || (key.expiresAt.Some? && (key.expiresAt.value.Unreadable? || key.expiresAt.value.time <= clock.check))
  {
  }

  // An identity that comes of a key is a use that the store counts exactly unless the key expires
  // between the check and the recording.
  lemma ResolvedKeyIsUsed(t: KeyStore.Table, id: Id, orgId: string, owner: Result<Caller, string>, clock: Clock)
    requires id in t && clock.read <= clock.check <= clock.recorded
    requires KeyIdentity(t[id], orgId, owner, clock).Ok?
    ensures Effect(t, Use(id, Some(clock.used), clock.recorded)).Ok? <==>
            !(t[id].expiresAt.Some? && clock.check < t[id].expiresAt.value.time <= clock.recorded)
  {
    HonouredExact(t[id], clock.read, clock.check);
  }

  // Hashes are unique, so the choice of a key by its hash is no choice.
  lemma TheHolder(t: KeyStore.Table, id: Id, hash: string)
    requires UniqueHashes(t) && HasHash(t, id, hash)
    ensures Holder(t, hash) == id
  {
  }

  // A revoked key resolves to a refusal, and is not used.
  lemma RevokedSecret(t: KeyStore.Table, id: Id, secret: string, orgId: Option<string>, world: Outside, clock: Clock)
    requires UniqueHashes(t) && HasHash(t, id, world.hashKey(secret)) && world.lookupError.None?
    requires t[id].status == Revoked
    ensures SecretIdentity(Some(t), secret, orgId, world, clock) == Err(ApiKeyInactive)
    ensures SecretUsed(Some(t), secret, orgId, world, clock) == Some(t)
  {
    TheHolder(t, id, world.hashKey(secret));
  }

  // Why a secret is refused without a look at a key; then no key is used.
  lemma SecretRefusalMeaning(keys: Option<map<Id, Key>>, secret: string, orgId: Option<string>, world: Outside,
                             clock: Clock)
    ensures var r := SecretIdentity(keys, secret, orgId, world, clock);
            && (keys.None? ==> r == Err(ApiKeyNotSupported))
            && (keys.Some? && world.lookupError.Some? ==> r == Err(KeyLookup(world.lookupError.value)))
            && (keys.Some? && world.lookupError.None? ==>
                  (r == Err(InvalidApiKey) <==>
                     forall id :: id in keys.value ==> keys.value[id].hash != world.hashKey(secret)))
            && (r.Err? ==> SecretUsed(keys, secret, orgId, world, clock) == keys)
  {
    assert forall id :: keys.Some? && id in keys.value ==>
             (keys.value[id].hash == world.hashKey(secret) <==> HasHash(keys.value, id, world.hashKey(secret)));
  }

  // What a secret comes to is what the one key of its hash comes to, for the owner that the provider
  // builds; if an identity came of it and the key is alive when that is recorded, it is used once more.
  lemma SecretMeaning(t: KeyStore.Table, id: Id, secret: string, orgId: Option<string>, world: Outside, clock: Clock)
    requires UniqueHashes(t) && id in t && t[id].hash == world.hashKey(secret) && world.lookupError.None?
    ensures var key, r := t[id], SecretIdentity(Some(t), secret, orgId, world, clock);
            var asked, owner := if orgId.Some? then orgId.value else "", world.buildIdentity(t[id].owner.id, orgId);
            var used := SecretUsed(Some(t), secret, orgId, world, clock);
            && r == KeyIdentity(key, asked, owner, clock)
            && used.Some? && used.value.Keys == t.Keys
            && (forall k :: k in t && k != id ==> used.value[k] == t[k])
            && used.value[id] ==
               if r.Ok? && key.status == Active && !(key.expiresAt.Some? && key.expiresAt.value.At?
                                                     && key.expiresAt.value.time <= clock.recorded)
               then key.(usageCount := key.usageCount + 1, lastUsedAt := Some(clock.used), updatedAt := clock.used)
               else key
  {
    TheHolder(t, id, world.hashKey(secret));
  }

  lemma OneKeyPerHash(keys: map<Id, Key>, hashIndex: map<string, Id>, id: Id, hash: string)
    requires HashesExact(keys, hashIndex) && HasHash(keys, id, hash)
    ensures Holder(keys, hash) == id
  {
    assert hashIndex[hash] == id;
  }

  method ResolveApiKeyIdentity(keyStore: MemoryKeyStore?, secret: string, orgId: Option<string>, world: Outside,
                               clock: Clock)
    returns (r: Result<Caller, Refusal>)
    requires keyStore != null ==> keyStore.Valid()
    modifies keyStore
    ensures keyStore == null ==> r == SecretIdentity(None, secret, orgId, world, clock)
    ensures keyStore != null ==>
              && keyStore.Valid()
              && r == SecretIdentity(Some(old(keyStore.keys)), secret, orgId, world, clock)
              && Some(keyStore.keys) == SecretUsed(Some(old(keyStore.keys)), secret, orgId, world, clock)
  {
    if keyStore == null {
      return Err(ApiKeyNotSupported);
    }
    if world.lookupError.Some? {
      return Err(KeyLookup(world.lookupError.value));
    }
    var found := keyStore.GetKeyByHash(world.hashKey(secret), clock.read);
    if found.None? {
      return Err(InvalidApiKey);
    }
    var key := found.value;
    ghost var id :| id in keyStore.keys && keyStore.keys[id].hash == key.hash
                    && key == Record(keyStore.keys[id], clock.read);
    assert HasHash(keyStore.keys, id, key.hash);
    OneKeyPerHash(keyStore.keys, keyStore.hashIndex, id, key.hash);
    if !Honoured(key, clock.check) {
      return Err(ApiKeyInactive);
    }
    if key.owner.kind == UserOwner {
      var owner := world.buildIdentity(key.owner.id, orgId);
      if owner.Err? {
        return Err(IdentityResolution(owner.error));
      }
      var scopes := Dedupe(owner.value.scopes + key.scopes);
      r := Ok(owner.value.(labels := owner.value.labels + key.labels, scopes := scopes));
    } else {
      var scopes := Dedupe(key.scopes);
      r := Ok(Caller("key:" + key.id, if key.owner.kind == OrgOwner then key.owner.id else orgId.GetOr(""), "", [],
                     key.labels, [], [], scopes));
    }
    var _ := keyStore.RecordKeyUsage(key.id, Some(clock.used), clock.recorded, clock.reported);
  }

  // --------------------------------------------------------------------- altogether

  ghost function ResolvedFrom(keys: Option<map<Id, Key>>, headers: map<string, string>, orgId: Option<string>,
                              world: Outside, clock: Clock, lower: string -> string): Result<Caller, Refusal>
  {
    var org := orgId.OrElse(Get(headers, "x-catalyst-org"));
    match ExtractCredentials(headers, lower)
    case NoCredentials => Err(MissingCredentials)
    case AccessToken(token) => TokenIdentity(token, org, world)
    case ApiKey(secret) => SecretIdentity(keys, secret, org, world, clock)
  }

  ghost function UsedFrom(keys: Option<map<Id, Key>>, headers: map<string, string>, orgId: Option<string>,
                          world: Outside, clock: Clock, lower: string -> string): Option<map<Id, Key>>
  {
    var org := orgId.OrElse(Get(headers, "x-catalyst-org"));
    match ExtractCredentials(headers, lower)
    case ApiKey(secret) => SecretUsed(keys, secret, org, world, clock)
    case _ => keys
  }

  ghost function Resolved(keys: Option<map<Id, Key>>, request: Request, world: Outside, clock: Clock,
                          lower: string -> string): Result<Caller, Refusal>
  {
    ResolvedFrom(keys, Normalized(request.headers, lower), request.orgId, world, clock, lower)
  }

  ghost function KeysAfter(keys: Option<map<Id, Key>>, request: Request, world: Outside, clock: Clock,
                           lower: string -> string): Option<map<Id, Key>>
  {
    UsedFrom(keys, Normalized(request.headers, lower), request.orgId, world, clock, lower)
  }

  // Tokens and keys are resolved for the organisation of the request, else of its header.
  lemma ResolvedMeaning(keys: Option<map<Id, Key>>, request: Request, world: Outside, clock: Clock,
                        lower: string -> string)
    ensures var headers := Normalized(request.headers, lower);
            var credentials, r := ExtractCredentials(headers, lower), Resolved(keys, request, world, clock, lower);
            var org := if request.orgId.Some? then request.orgId else Get(headers, "x-catalyst-org");
            && (credentials.NoCredentials? ==> r == Err(MissingCredentials))
            && (credentials.AccessToken? ==> r == TokenIdentity(credentials.token, org, world))
            && (credentials.ApiKey? ==> r == SecretIdentity(keys, credentials.secret, org, world, clock))
            && (!credentials.ApiKey? ==> KeysAfter(keys, request, world, clock, lower) == keys)
  {
  }

  method ResolveIdentity(keyStore: MemoryKeyStore?, headers: map<string, string>, orgId: Option<string>, world: Outside,
                 clock: Clock, lower: string -> string)
    returns (r: Result<Caller, Refusal>)
    requires keyStore != null ==> keyStore.Valid()
    modifies keyStore
    ensures keyStore == null ==> r == ResolvedFrom(None, headers, orgId, world, clock, lower)
    ensures keyStore != null ==>
              && keyStore.Valid()
              && r == ResolvedFrom(Some(old(keyStore.keys)), headers, orgId, world, clock, lower)
              && Some(keyStore.keys) == UsedFrom(Some(old(keyStore.keys)), headers, orgId, world, clock, lower)
  {
    var org := orgId.OrElse(Get(headers, "x-catalyst-org"));
    match ExtractCredentials(headers, lower)
    case NoCredentials => r := Err(MissingCredentials);
    case AccessToken(token) => r := TokenIdentity(token, org, world);
    case ApiKey(secret) => r := ResolveApiKeyIdentity(keyStore, secret, org, world, clock);
  }
}
