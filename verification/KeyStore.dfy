/**
 The in-memory key store. Its abstract state is the table of keys and the order in which they were
 stored. Records are values, so what a caller holds never changes with the store.
 */
module KeyStore {
  import opened Prelude
  import opened Contracts
  import opened OrderedIndex

  datatype Status = Active | Lapsed | Revoked

  datatype OwnerKind = UserOwner | OrgOwner | ServiceOwner | SystemOwner

  datatype Owner = Owner(kind: OwnerKind, id: string)

  // A time that is given need not be readable as one.
  datatype Expiry = At(time: int) | Unreadable

  datatype Key = Key(
    id: Id, hash: string, owner: Owner, createdAt: int, updatedAt: int, expiresAt: Option<Expiry>,
    lastUsedAt: Option<int>, usageCount: nat, status: Status, scopes: seq<string>, labels: LabelSet,
    revokedAt: Option<int>)

  datatype IssueInput = IssueInput(
    hash: string, owner: Owner, createdAt: Option<int>, expiresAt: Option<Expiry>, scopes: seq<string>,
    labels: Option<LabelSet>)

  datatype KeyError = DuplicateId | DuplicateHash | NotFound | KeyRevoked | KeyExpired | AlreadyRevoked

  type Table = t: map<Id, Key> | forall id :: id in t ==> t[id].id == id witness map[]

  function KindName(kind: OwnerKind): string {
    match kind
    case UserOwner => "user"
    case OrgOwner => "org"
    case ServiceOwner => "service"
    case SystemOwner => "system"
  }

  function OwnerText(owner: Owner): string {
    KindName(owner.kind) + ":" + owner.id
  }

  // Owners are told apart by their text, since no kind is the beginning of another.
  lemma OwnersDiffer(a: Owner, b: Owner)
    ensures OwnerText(a) == OwnerText(b) <==> a == b
  {
    if OwnerText(a) == OwnerText(b) {
      assert OwnerText(a)[0] == KindName(a.kind)[0] && OwnerText(b)[0] == KindName(b.kind)[0];
      assert OwnerText(a)[1] == KindName(a.kind)[1] && OwnerText(b)[1] == KindName(b.kind)[1];
      assert a.kind == b.kind;
      SamePrefix(KindName(a.kind) + ":", a.id, b.id);
    }
  }

  function OwnerTexts(keys: map<Id, Key>): map<Id, string> {
    map id | id in keys :: OwnerText(keys[id].owner)
  }

  // `resolveStatus`
  function StatusOf(key: Key, now: int): Status {
    if key.status != Active then key.status
    else if key.expiresAt.Some? && key.expiresAt.value.At? && key.expiresAt.value.time <= now then Lapsed
    else Active
  }

  function Record(key: Key, now: int): Key {
    key.(status := StatusOf(key, now))
  }

  // --------------------------------------------------------------------------- steps

  datatype Event =
    | Issue(id: Id, input: IssueInput, at: int)
    | Use(id: Id, usedAt: Option<int>, at: int)
    | Revoke(id: Id, revokedAt: Option<int>, at: int)

  ghost predicate HashTaken(t: Table, hash: string) {
    exists id :: id in t && t[id].hash == hash
  }

  function Issued(e: Event): Key
    requires e.Issue?
  {
    var created := e.input.createdAt.GetOr(e.at);
    Key(e.id, e.input.hash, e.input.owner, created, created, e.input.expiresAt, None, 0, Active,
        FirstOccurrences(e.input.scopes), e.input.labels.GetOr(map[]), None)
  }

  function Used(key: Key, usedAt: int): Key {
    key.(lastUsedAt := Some(usedAt), usageCount := key.usageCount + 1, updatedAt := usedAt)
  }

  function RevokedKey(key: Key, revokedAt: int): Key {
    key.(status := Revoked, revokedAt := Some(revokedAt), updatedAt := revokedAt)
  }

  // The key as it is stored once the operation has succeeded, or why it fails.
  ghost function Effect(t: Table, e: Event): Result<Key, KeyError> {
    match e
    case Issue(id, input, at) =>
      if id in t then Err(DuplicateId)
      else if HashTaken(t, input.hash) then Err(DuplicateHash)
      else Ok(Issued(e))
    case Use(id, usedAt, at) =>
      if id !in t then Err(NotFound)
      else
        (match StatusOf(t[id], at)
         case Revoked => Err(KeyRevoked)
         case Lapsed => Err(KeyExpired)
         case Active => Ok(Used(t[id], usedAt.GetOr(at))))
    case Revoke(id, revokedAt, at) =>
      if id !in t then Err(NotFound)
      else if t[id].status == Revoked then Err(AlreadyRevoked)
      else Ok(RevokedKey(t[id], revokedAt.GetOr(at)))
  }

  ghost function After(t: Table, e: Event): Table {
    var effect := Effect(t, e);
    if effect.Ok? then t[e.id := effect.value] else t
  }

  // The keys of the ids that a listing shows.
  function Shown(keys: map<Id, Key>, ids: seq<Id>, includeRevoked: bool, includeExpired: bool, now: int): seq<Key> {
    if ids == [] then []
    else
      var rest := Shown(keys, ids[1..], includeRevoked, includeExpired, now);
      if ids[0] in keys && Shows(keys[ids[0]], includeRevoked, includeExpired, now)
      then [Record(keys[ids[0]], now)] + rest
      else rest
  }

  predicate Shows(key: Key, includeRevoked: bool, includeExpired: bool, now: int) {
    && (StatusOf(key, now) == Revoked ==> includeRevoked)
    && (StatusOf(key, now) == Lapsed ==> includeExpired)
  }

  lemma {:induction false} ShownMeaning(keys: map<Id, Key>, ids: seq<Id>, includeRevoked: bool, includeExpired: bool,
                                        now: int, record: Key)
    ensures record in Shown(keys, ids, includeRevoked, includeExpired, now) <==>
            exists id: Id :: id in ids && id in keys && Shows(keys[id], includeRevoked, includeExpired, now)
                             && record == Record(keys[id], now)
  {
    if ids != [] {
      ShownMeaning(keys, ids[1..], includeRevoked, includeExpired, now, record);
      assert ids == [ids[0]] + ids[1..];
      if record in Shown(keys, ids[1..], includeRevoked, includeExpired, now) {
        var id: Id :| id in ids[1..] && id in keys && Shows(keys[id], includeRevoked, includeExpired, now)
                      && record == Record(keys[id], now);
        assert id in ids;
      }
    }
  }

  lemma {:induction false} ShownNext(keys: map<Id, Key>, ids: seq<Id>, id: Id, includeRevoked: bool,
                                     includeExpired: bool, now: int)
    ensures Shown(keys, ids + [id], includeRevoked, includeExpired, now) ==
            Shown(keys, ids, includeRevoked, includeExpired, now) +
            if id in keys && Shows(keys[id], includeRevoked, includeExpired, now) then [Record(keys[id], now)] else []
  {
    if ids == [] {
      assert ([id])[1..] == [];
    } else {
      assert (ids + [id])[1..] == ids[1..] + [id];
      ShownNext(keys, ids[1..], id, includeRevoked, includeExpired, now);
    }
  }

  ghost predicate HashesExact(keys: map<Id, Key>, hashIndex: map<string, Id>) {
    && (forall hash :: hash in hashIndex ==> hashIndex[hash] in keys && keys[hashIndex[hash]].hash == hash)
    && (forall id :: id in keys ==> keys[id].hash in hashIndex && hashIndex[keys[id].hash] == id)
  }

  lemma StoredExact(keys: map<Id, Key>, hashIndex: map<string, Id>, ownerIndex: Index<string, Id>, order: seq<Id>,
                    key: Key)
    requires HashesExact(keys, hashIndex) && Exact(ownerIndex, order, OwnerTexts(keys))
    requires key.id !in keys && key.hash !in hashIndex
    ensures HashesExact(keys[key.id := key], hashIndex[key.hash := key.id])
    ensures Exact(Added(ownerIndex, OwnerText(key.owner), key.id), order + [key.id], OwnerTexts(keys[key.id := key]))
  {
    AddedExact(ownerIndex, order, OwnerTexts(keys), OwnerText(key.owner), key.id);
    assert OwnerTexts(keys[key.id := key]) == OwnerTexts(keys)[key.id := OwnerText(key.owner)];
  }

  class MemoryKeyStore {
    var keys: map<Id, Key>
    var hashIndex: map<string, Id>
    var ownerIndex: Index<string, Id>
    ghost var order: seq<Id>

    ghost predicate Valid()
      reads this
    {
      && (forall id :: id in keys ==> keys[id].id == id)
      && HashesExact(keys, hashIndex)
      && Exact(ownerIndex, order, OwnerTexts(keys))
    }

    constructor ()
      ensures Valid() && keys == map[]
    {
      keys, hashIndex, ownerIndex, order := map[], map[], map[], [];
    }

    // A key given from the start keeps its status and usage count.
    method InsertInitialKey(key: Key) returns (ok: bool)
      requires Valid()
      modifies this
      ensures Valid()
      ensures ok <==> key.id !in old(keys) && !HashTaken(old(keys), key.hash)
      ensures keys == if ok then old(keys)[key.id := key] else old(keys)
      ensures order == if ok then old(order) + [key.id] else old(order)
    {
      if key.id in keys || key.hash in hashIndex {
        return false;
      }
      StoreKey(key);
      return true;
    }

    method IssueKey(id: Id, input: IssueInput, now: int) returns (r: Result<Key, KeyError>)
      requires Valid()
      modifies this
      ensures Valid()
      ensures r == Reported(Effect(old(keys), Issue(id, input, now)), now)
      ensures keys == After(old(keys), Issue(id, input, now))
      ensures order == if r.Ok? then old(order) + [id] else old(order)
    {
      if id in keys {
        return Err(DuplicateId);
      }
      if input.hash in hashIndex {
        assert HashTaken(keys, input.hash);
        return Err(DuplicateHash);
      }
      var created := input.createdAt.GetOr(now);
      var scopes := DedupeStrings(input.scopes);
      var stored := Key(id, input.hash, input.owner, created, created, input.expiresAt, None, 0, Active, scopes,
                        input.labels.GetOr(map[]), None);
      StoreKey(stored);
      return Ok(Record(stored, now));
    }

    method StoreKey(key: Key)
      requires Valid() && key.id !in keys && key.hash !in hashIndex
      modifies this
      ensures Valid()
      ensures keys == old(keys)[key.id := key] && order == old(order) + [key.id]
    {
      StoredExact(keys, hashIndex, ownerIndex, order, key);
      keys := keys[key.id := key];
      hashIndex := hashIndex[key.hash := key.id];
      ownerIndex := Added(ownerIndex, OwnerText(key.owner), key.id);
      order := order + [key.id];
    }

    method GetKeyById(id: Id, now: int) returns (r: Option<Key>)
      ensures r == if id in keys then Some(Record(keys[id], now)) else None
    {
      return if id in keys then Some(Record(keys[id], now)) else None;
    }

    // The lookup by hash is a scan of all keys.
    method GetKeyByHash(hash: string, now: int) returns (r: Option<Key>)
      requires Valid()
      ensures r.Some? ==> exists id :: id in keys && keys[id].hash == hash && r.value == Record(keys[id], now)
      ensures r.None? <==> !HashTaken(keys, hash)
    {
      if hash !in hashIndex {
        return None;
      }
      r := GetKeyById(hashIndex[hash], now);
    }

    // So is the listing by owner, in the order in which the keys were stored.
    method ListKeysByOwner(owner: Owner, includeRevoked: bool, includeExpired: bool, now: int) returns (r: seq<Key>)
      requires Valid()
      ensures r == Shown(keys, Under(order, OwnerTexts(keys), OwnerText(owner)), includeRevoked, includeExpired, now)
      ensures forall record :: record in r <==>
                exists id: Id :: id in keys && keys[id].owner == owner
                                 && Shows(keys[id], includeRevoked, includeExpired, now)
                                 && record == Record(keys[id], now)
    {
      var ids := Bucket(ownerIndex, OwnerText(owner));
      BucketOfOwner(keys, ownerIndex, order, owner);
      r := RecordsOf(ids, includeRevoked, includeExpired, now);
      ListedMeaning(keys, ids, owner, includeRevoked, includeExpired, now);
    }

    method RecordsOf(ids: seq<Id>, includeRevoked: bool, includeExpired: bool, now: int) returns (r: seq<Key>)
      requires forall id :: id in ids ==> id in keys
      ensures r == Shown(keys, ids, includeRevoked, includeExpired, now)
    {
      r := [];
      for i := 0 to |ids|
        invariant r == Shown(keys, ids[..i], includeRevoked, includeExpired, now)
      {
        assert ids[..i + 1] == ids[..i] + [ids[i]];
        ShownNext(keys, ids[..i], ids[i], includeRevoked, includeExpired, now);
        var status := StatusOf(keys[ids[i]], now);
        if !(status == Revoked && !includeRevoked) && !(status == Lapsed && !includeExpired) {
          r := r + [Record(keys[ids[i]], now)];
        }
      }
      assert ids[..|ids|] == ids;
    }

    // The answer is read on a second look at the clock.
    method RecordKeyUsage(id: Id, usedAt: Option<int>, now: int, later: int) returns (r: Result<Key, KeyError>)
      requires Valid()
      modifies this
      ensures Valid()
      ensures r == Reported(Effect(old(keys), Use(id, usedAt, now)), later)
      ensures keys == After(old(keys), Use(id, usedAt, now))
      ensures order == old(order)
    {
      if id !in keys {
        return Err(NotFound);
      }
      var stored := keys[id];
      var status := StatusOf(stored, now);
      if status == Revoked {
        return Err(KeyRevoked);
      }
      if status == Lapsed {
        return Err(KeyExpired);
      }
      var used := usedAt.GetOr(now);
      stored := stored.(lastUsedAt := Some(used), usageCount := stored.usageCount + 1, updatedAt := used);
      Patch(stored);
      return Ok(Record(stored, later));
    }

    method RevokeKey(id: Id, revokedAt: Option<int>, now: int) returns (r: Result<Key, KeyError>)
      requires Valid()
      modifies this
      ensures Valid()
      ensures r == Reported(Effect(old(keys), Revoke(id, revokedAt, now)), now)
      ensures keys == After(old(keys), Revoke(id, revokedAt, now))
      ensures order == old(order)
    {
      if id !in keys {
        return Err(NotFound);
      }
      var stored := keys[id];
      if stored.status == Revoked {
        return Err(AlreadyRevoked);
      }
      var revoked := revokedAt.GetOr(now);
      stored := stored.(status := Revoked, revokedAt := Some(revoked), updatedAt := revoked);
      Patch(stored);
      return Ok(Record(stored, now));
    }

    // Fields other than the indexed ones change in place.
    method Patch(key: Key)
      requires Valid() && key.id in keys && key.hash == keys[key.id].hash && key.owner == keys[key.id].owner
      modifies this`keys
      ensures Valid() && keys == old(keys)[key.id := key]
    {
      assert OwnerTexts(keys[key.id := key]) == OwnerTexts(keys);
      keys := keys[key.id := key];
    }
  }

  function Reported(effect: Result<Key, KeyError>, now: int): Result<Key, KeyError> {
    match effect
    case Ok(key) => Ok(Record(key, now))
    case Err(e) => Err(e)
  }

  lemma BucketOfOwner(keys: map<Id, Key>, index: Index<string, Id>, order: seq<Id>, owner: Owner)
    requires Exact(index, order, OwnerTexts(keys))
    ensures forall id :: id in Bucket(index, OwnerText(owner)) <==> id in keys && keys[id].owner == owner
  {
    BucketRows(index, order, OwnerTexts(keys), OwnerText(owner));
    forall id | id in keys ensures OwnerText(keys[id].owner) == OwnerText(owner) <==> keys[id].owner == owner {
      OwnersDiffer(keys[id].owner, owner);
    }
  }

  lemma ListedMeaning(keys: map<Id, Key>, ids: seq<Id>, owner: Owner, includeRevoked: bool, includeExpired: bool,
                      now: int)
    requires forall id :: id in ids <==> id in keys && keys[id].owner == owner
    ensures forall record :: record in Shown(keys, ids, includeRevoked, includeExpired, now) <==>
              exists id: Id :: id in keys && keys[id].owner == owner
                               && Shows(keys[id], includeRevoked, includeExpired, now)
                               && record == Record(keys[id], now)
  {
    forall record {
      ShownMeaning(keys, ids, includeRevoked, includeExpired, now, record);
    }
  }

  // --------------------------------------------------------------------- whole runs

  ghost function Run(t: Table, run: seq<Event>): Table {
    if run == [] then t else After(Run(t, Front(run)), Last(run))
  }

  ghost predicate Clocked(start: int, run: seq<Event>, now: int) {
    && start <= now
    && (forall i :: 0 <= i < |run| ==> start <= run[i].at <= now)
    && (forall i, j :: 0 <= i < j < |run| ==> run[i].at <= run[j].at)
  }

  predicate RevokedIn(run: seq<Event>, id: Id) {
    run != [] && ((Last(run).Revoke? && Last(run).id == id) || RevokedIn(Front(run), id))
  }

  // The uses of a key that come before its revocation and find it alive.
  function LiveUses(key: Key, run: seq<Event>): nat {
    if run == [] then 0
    else
      var e := Last(run);
      LiveUses(key, Front(run)) +
      if e.Use? && e.id == key.id && !RevokedIn(Front(run), key.id) && StatusOf(key, e.at) == Active then 1 else 0
  }

  // What a run makes of a key: its revocation is kept, its live uses are counted, and hash, owner,
  // scopes, labels, creation and expiry never change.
  lemma {:induction false} KeyAfter(t: Table, run: seq<Event>, id: Id)
    requires id in t
    ensures var after := Run(t, run);
            && id in after
            && after[id].status == (if RevokedIn(run, id) then Revoked else t[id].status)
            && after[id].usageCount == t[id].usageCount + LiveUses(t[id], run)
            && after[id].(status := t[id].status, usageCount := t[id].usageCount, updatedAt := t[id].updatedAt,
                          lastUsedAt := t[id].lastUsedAt, revokedAt := t[id].revokedAt) == t[id]
  {
    if run != [] {
      KeyAfter(t, Front(run), id);
    }
  }

  // The status reported is revoked once a revocation has been asked for, and depends on the clock
  // alone otherwise.
  lemma StatusExact(t: Table, run: seq<Event>, id: Id, now: int)
    requires id in t
    ensures id in Run(t, run)
    ensures StatusOf(Run(t, run)[id], now) == if RevokedIn(run, id) then Revoked else StatusOf(t[id], now)
  {
    KeyAfter(t, run, id);
  }

  function Rank(status: Status): nat {
    match status
    case Active => 0
    case Lapsed => 1
    case Revoked => 2
  }

  // It never moves back along active, expired, revoked.
  lemma StatusMovesForward(t: Table, run: seq<Event>, id: Id, start: int, now: int)
    requires id in t && Clocked(start, run, now)
    ensures id in Run(t, run) && Rank(StatusOf(t[id], start)) <= Rank(StatusOf(Run(t, run)[id], now))
  {
    StatusExact(t, run, id, now);
  }

  ghost predicate UniqueHashes(t: Table) {
    forall a, b :: a in t && b in t && t[a].hash == t[b].hash ==> a == b
  }

  lemma {:induction false} HashesStayUnique(t: Table, run: seq<Event>)
    requires UniqueHashes(t)
    ensures UniqueHashes(Run(t, run))
  {
    if run != [] {
      HashesStayUnique(t, Front(run));
    }
  }

  // A use is counted exactly when its caller is told that it succeeded.
  lemma UseCountedExactly(t: Table, run: seq<Event>, id: Id, usedAt: Option<int>, at: int)
    requires id in t
    ensures Effect(Run(t, run), Use(id, usedAt, at)).Ok? <==>
            LiveUses(t[id], run + [Use(id, usedAt, at)]) == LiveUses(t[id], run) + 1
  {
    var longer := run + [Use(id, usedAt, at)];
    assert Front(longer) == run;
    KeyAfter(t, run, id);
  }

  // What issuing comes to: a key as asked for, unused and active, its scopes once each; or why not.
  lemma IssueMeaning(t: Table, id: Id, input: IssueInput, at: int)
    ensures var effect := Effect(t, Issue(id, input, at));
            && (id in t ==> effect == Err(DuplicateId))
            && (id !in t && (exists other :: other in t && t[other].hash == input.hash) ==>
                  effect == Err(DuplicateHash))
            && (id !in t && (forall other :: other in t ==> t[other].hash != input.hash) ==>
                  && effect.Ok?
                  && var key := effect.value;
                     && key.id == id && key.hash == input.hash && key.owner == input.owner
                     && key.expiresAt == input.expiresAt && key.usageCount == 0 && key.status == Active
                     && key.lastUsedAt == None && key.revokedAt == None
                     && key.createdAt == key.updatedAt == (if input.createdAt.Some? then input.createdAt.value else at)
                     && key.labels == (if input.labels.Some? then input.labels.value else map[])
                     && Distinct(key.scopes) && forall s :: s in key.scopes <==> s in input.scopes)
  {
    FirstOccurrencesMeaning(input.scopes);
  }

  // What using and revoking come to, and when they fail.
  lemma ChangeMeaning(t: Table, id: Id, given: Option<int>, at: int)
    ensures var time := if given.Some? then given.value else at;
            var use, revoke := Effect(t, Use(id, given, at)), Effect(t, Revoke(id, given, at));
            && (id !in t ==> use == revoke == Err(NotFound))
            && (id in t && t[id].status == Revoked ==> use == Err(KeyRevoked) && revoke == Err(AlreadyRevoked))
            && (id in t && t[id].status != Revoked ==>
                  revoke == Ok(t[id].(status := Revoked, revokedAt := Some(time), updatedAt := time)))
            && (id in t && t[id].status != Revoked ==>
                  var lapsed := || t[id].status == Lapsed
                                || (t[id].expiresAt.Some? && t[id].expiresAt.value.At?
                                    && t[id].expiresAt.value.time <= at);
                  use == if lapsed then Err(KeyExpired)
                         else
                            Ok(t[id].(usageCount := t[id].usageCount + 1, lastUsedAt := Some(time),
                                      updatedAt := time)))
  {
  }

  // What a listing leaves out.
  lemma ShowsMeaning(key: Key, includeRevoked: bool, includeExpired: bool, now: int)
    ensures Shows(key, includeRevoked, includeExpired, now) <==>
            || Record(key, now).status == Active
            || (Record(key, now).status == Revoked && includeRevoked)
            || (Record(key, now).status == Lapsed && includeExpired)
  {
  }

  // ------------------------------------------------------- the forward-auth service's use

  // `isKeyActive`, on the record the store hands out.
  predicate Honoured(record: Key, now: int) {
    && record.status == Active
    && (record.expiresAt.Some? ==> record.expiresAt.value.At? && record.expiresAt.value.time > now)
  }

  // A record read at one time and looked at later is honoured exactly when the store would report
  // the key active then and its expiry can be read: to the store an unreadable expiry never comes.
  lemma HonouredExact(key: Key, readAt: int, now: int)
    requires readAt <= now
    ensures Honoured(Record(key, readAt), now) <==> StatusOf(key, now) == Active && key.expiresAt != Some(Unreadable)
  {
  }

  // Nothing that comes after a revocation or an expiry makes a key honoured again.
  lemma NeverHonouredAgain(t: Table, run: seq<Event>, id: Id, start: int, now: int)
    requires id in t && Clocked(start, run, now)
    requires !Honoured(Record(t[id], start), start)
    ensures id in Run(t, run) && !Honoured(Record(Run(t, run)[id], now), now)
  {
    KeyAfter(t, run, id);
    StatusExact(t, run, id, now);
    HonouredExact(t[id], start, start);
    HonouredExact(Run(t, run)[id], now, now);
  }
}
