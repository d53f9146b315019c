/** The invalidator: which tags a change of a record purges, and the concurrent purging itself. */
module CacheInvalidation {
  import opened Prelude
  import opened Contracts
  import opened MemoryCache

  datatype IdentityTag =
    | IdentityUser(id: Id) | IdentityOrg(id: Id) | IdentityMembership(id: Id) | IdentityGroup(id: Id)

  datatype DecisionTag =
    | DecisionJwt | DecisionUser(id: Id) | DecisionOrg(id: Id) | DecisionGroup(id: Id)

  datatype Context = Context(
    userId: Option<Id>, orgId: Option<Id>, membershipId: Option<Id>, groupIds: seq<Id>)

  function One<T, U>(o: Option<T>, tag: T -> U): set<U> {
    if o.Some? then {tag(o.value)} else {}
  }

  function IdentityTags(c: Context): (tags: set<IdentityTag>)
    ensures forall tag :: tag in tags <==>
              match tag
              case IdentityUser(id) => c.userId == Some(id)
              case IdentityOrg(id) => c.orgId == Some(id)
              case IdentityMembership(id) => c.membershipId == Some(id)
              case IdentityGroup(id) => id in c.groupIds
    decreases |c.groupIds|
  {
    if c.groupIds == [] then
      One(c.userId, id => IdentityUser(id)) + One(c.orgId, id => IdentityOrg(id)) +
      One(c.membershipId, id => IdentityMembership(id))
    else IdentityTags(c.(groupIds := Front(c.groupIds))) + {IdentityGroup(Last(c.groupIds))}
  }

  function DecisionTags(c: Context): (tags: set<DecisionTag>)
    ensures forall tag :: tag in tags <==>
              match tag
              case DecisionJwt => false
              case DecisionUser(id) => c.userId == Some(id)
              case DecisionOrg(id) => c.orgId == Some(id)
              case DecisionGroup(id) => id in c.groupIds
    decreases |c.groupIds|
  {
    if c.groupIds == [] then
      One(c.userId, id => DecisionUser(id)) + One(c.orgId, id => DecisionOrg(id))
    else DecisionTags(c.(groupIds := Front(c.groupIds))) + {DecisionGroup(Last(c.groupIds))}
  }

  lemma IdentityTagsMeaning(c: Context)
    ensures forall id :: IdentityUser(id) in IdentityTags(c) <==> c.userId == Some(id)
    ensures forall id :: IdentityOrg(id) in IdentityTags(c) <==> c.orgId == Some(id)
    ensures forall id :: IdentityMembership(id) in IdentityTags(c) <==> c.membershipId == Some(id)
    ensures forall id :: IdentityGroup(id) in IdentityTags(c) <==> id in c.groupIds
  {
  }

  // A cache need not be able to purge by tag, nor to clear.
  datatype Abilities = Abilities(purge: bool, clear: bool)

  function InvalidatedBy<K, V, T>(can: Abilities, entries: Entries<K, V, T>, tags: set<T>): Entries<K, V, T> {
    if tags != {} && can.purge then WithoutTags(entries, tags)
    else if can.clear then map[]
    else entries
  }

  const FULL := Abilities(true, true)

  // With a cache that can do both: without a tag to purge, everything goes.
  function Invalidated<K, V, T>(entries: Entries<K, V, T>, tags: set<T>): Entries<K, V, T> {
    InvalidatedBy(FULL, entries, tags)
  }

  // How far the purges have come: every key they may delete carries one of the tags, and every
  // entry that still carries a tag is waiting to be deleted, or its tag waiting to be looked up.
  ghost predicate Purging<K(!new), V, T(!new)>(before: Entries<K, V, T>, entries: Entries<K, V, T>, tags: set<T>,
                                               unstarted: set<T>, work: set<(T, K)>)
  {
    && (forall k :: k in entries ==> k in before && before[k] == entries[k])
    && (forall k :: k in before && before[k].tags !! tags ==> k in entries)
    && (forall step: (T, K) :: step in work ==> step.0 in tags && step.1 in before && step.0 in before[step.1].tags)
    && (forall k, t :: k in entries && t in tags && t in entries[k].tags ==> t in unstarted || (t, k) in work)
  }

  // The purge of this tag has looked up its keys and deleted them all.
  predicate Emptied<K(==), T(==)>(tag: T, unstarted: set<T>, work: set<(T, K)>) {
    tag !in unstarted && forall step | step in work :: step.0 != tag
  }

  // What invalidation is for, no entry left under one of the tags, fails exactly for a cache that
  // can do neither and holds one.
  lemma InvalidationExact<K, V, T>(can: Abilities, entries: Entries<K, V, T>, tags: set<T>)
    ensures (forall k :: k in InvalidatedBy(can, entries, tags) ==> entries[k].tags !! tags) <==>
            can.purge || can.clear || forall k :: k in entries ==> entries[k].tags !! tags
  {
  }

  // Key by key: purging takes what has one of the tags; clearing, which also answers for no tags at
  // all, takes everything; else all stays.
  lemma InvalidationMeaning<K, V, T>(can: Abilities, entries: Entries<K, V, T>, tags: set<T>, k: K)
    ensures Get(InvalidatedBy(can, entries, tags), k) ==
            if tags != {} && can.purge then
              if k in entries && exists t :: t in tags && t in entries[k].tags then None else Get(entries, k)
            else if can.clear then None
            else Get(entries, k)
  {
    if k in entries {
      assert (exists t :: t in tags && t in entries[k].tags) <==> !(entries[k].tags !! tags);
    }
  }

  method InvalidateCache<K(==,!new), V, T(==,!new)>(cache: MemoryCache<K, V, T>, can: Abilities, tags: set<T>)
    requires cache.Valid()
    modifies cache
    ensures cache.Valid()
    ensures cache.entries == InvalidatedBy(can, old(cache.entries), tags)
    ensures cache.nextSerial == old(cache.nextSerial)
  {
    if tags == {} {
      if can.clear {
        cache.Clear();
      }
      return;
    }
    if can.purge {
      PurgeTags(cache, tags);
      return;
    }
    if can.clear {
      cache.Clear();
    }
  }

  // One purge per tag, all under way at once. Each first takes the keys its tag has at that
  // moment, then deletes them one at a time, then drops its bucket; the loop interleaves these
  // steps in an arbitrary order.
  method PurgeTags<K(==,!new), V, T(==,!new)>(cache: MemoryCache<K, V, T>, tags: set<T>)
    requires cache.Valid()
    modifies cache
    ensures cache.Valid()
    ensures cache.entries == WithoutTags(old(cache.entries), tags)
    ensures cache.nextSerial == old(cache.nextSerial)
  {
    ghost var before := cache.entries;
    var unstarted, work, unfinished := tags, {}, tags;
    while unfinished != {}
      invariant cache.Valid()
      invariant cache.nextSerial == old(cache.nextSerial)
      invariant unstarted <= unfinished <= tags
      invariant forall step: (T, K) :: step in work ==> step.0 in unfinished && step.0 !in unstarted
      invariant Purging(before, cache.entries, tags, unstarted, work)
      decreases unstarted, work, unfinished
    {
      ghost var some :| some in unfinished;
      assert unstarted == {} && work == {} ==> Emptied(some, unstarted, work);
      if
      case unstarted != {} =>
        var tag :| tag in unstarted;
        assert forall k :: k in Bucket(cache.tagIndex, tag) ==> k in cache.entries && tag in cache.entries[k].tags;
        work := work + set k | k in Bucket(cache.tagIndex, tag) :: (tag, k);
        unstarted := unstarted - {tag};
      case work != {} =>
        var step :| step in work;
        cache.Delete(step.1);
        work := work - {step};
      case exists tag :: tag in unfinished && Emptied(tag, unstarted, work) =>
        var tag :| tag in unfinished && Emptied(tag, unstarted, work);
        cache.DropBucket(tag);
        unfinished := unfinished - {tag};
    }
    assert work == {} && unstarted == {};
  }

  lemma DecisionTagsNext(c: Context, i: nat)
    requires i < |c.groupIds|
    ensures DecisionTags(c.(groupIds := c.groupIds[..i + 1])) ==
            DecisionTags(c.(groupIds := c.groupIds[..i])) + {DecisionGroup(c.groupIds[i])}
  {
    assert Front(c.groupIds[..i + 1]) == c.groupIds[..i];
  }

  method DecisionTagsToPurge(c: Context) returns (tags: set<DecisionTag>)
    ensures tags == DecisionTags(c)
  {
    tags := {};
    if c.userId.Some? {
      tags := tags + {DecisionUser(c.userId.value)};
    }
    if c.orgId.Some? {
      tags := tags + {DecisionOrg(c.orgId.value)};
    }
    assert tags == DecisionTags(c.(groupIds := []));
    for i := 0 to |c.groupIds|
      invariant tags == DecisionTags(c.(groupIds := c.groupIds[..i]))
    {
      DecisionTagsNext(c, i);
      tags := tags + {DecisionGroup(c.groupIds[i])};
    }
    assert c.groupIds[..|c.groupIds|] == c.groupIds;
  }

  lemma IdentityTagsNext(c: Context, i: nat)
    requires i < |c.groupIds|
    ensures IdentityTags(c.(groupIds := c.groupIds[..i + 1])) ==
            IdentityTags(c.(groupIds := c.groupIds[..i])) + {IdentityGroup(c.groupIds[i])}
  {
    assert Front(c.groupIds[..i + 1]) == c.groupIds[..i];
  }

  method IdentityTagsToPurge(c: Context) returns (tags: set<IdentityTag>)
    ensures tags == IdentityTags(c)
  {
    tags := {};
    if c.userId.Some? {
      tags := tags + {IdentityUser(c.userId.value)};
    }
    if c.orgId.Some? {
      tags := tags + {IdentityOrg(c.orgId.value)};
    }
    if c.membershipId.Some? {
      tags := tags + {IdentityMembership(c.membershipId.value)};
    }
    assert tags == IdentityTags(c.(groupIds := []));
    for i := 0 to |c.groupIds|
      invariant tags == IdentityTags(c.(groupIds := c.groupIds[..i]))
    {
      IdentityTagsNext(c, i);
      tags := tags + {IdentityGroup(c.groupIds[i])};
    }
    assert c.groupIds[..|c.groupIds|] == c.groupIds;
  }

  class CacheInvalidator<K(==,!new), D> {
    const decisionCache: MemoryCache?<string, D, DecisionTag>
    const identityCache: MemoryCache?<K, EffectiveIdentity, IdentityTag>
    const decisionCan: Abilities
    const identityCan: Abilities

    constructor (decisionCache: MemoryCache?<string, D, DecisionTag>, decisionCan: Abilities,
                 identityCache: MemoryCache?<K, EffectiveIdentity, IdentityTag>, identityCan: Abilities)
      ensures this.decisionCache == decisionCache && this.decisionCan == decisionCan
      ensures this.identityCache == identityCache && this.identityCan == identityCan
    {
      this.decisionCache, this.identityCache := decisionCache, identityCache;
      this.decisionCan, this.identityCan := decisionCan, identityCan;
    }

    ghost predicate Valid()
      reads decisionCache, identityCache
    {
      && (decisionCache != null ==> decisionCache.Valid())
      && (identityCache != null ==> identityCache.Valid())
      && decisionCache as object? != identityCache
    }

    method Invalidate(c: Context)
      requires Valid()
      modifies decisionCache, identityCache
      ensures Valid()
      ensures decisionCache != null ==>
                decisionCache.entries == InvalidatedBy(decisionCan, old(decisionCache.entries), DecisionTags(c))
      ensures identityCache != null ==>
                identityCache.entries == InvalidatedBy(identityCan, old(identityCache.entries), IdentityTags(c))
      ensures identityCache != null ==> identityCache.nextSerial == old(identityCache.nextSerial)
    {
      InvalidateDecisionCache(c);
      InvalidateIdentityCache(c);
    }

    method InvalidateDecisionCache(c: Context)
      requires Valid()
      modifies decisionCache
      ensures Valid()
      ensures decisionCache != null ==>
                decisionCache.entries == InvalidatedBy(decisionCan, old(decisionCache.entries), DecisionTags(c))
    {
      if decisionCache == null {
        return;
      }
      var tags := DecisionTagsToPurge(c);
      InvalidateCache(decisionCache, decisionCan, tags);
    }

    method InvalidateIdentityCache(c: Context)
      requires Valid()
      modifies identityCache
      ensures Valid()
      ensures identityCache != null ==>
                identityCache.entries == InvalidatedBy(identityCan, old(identityCache.entries), IdentityTags(c))
      ensures identityCache != null ==> identityCache.nextSerial == old(identityCache.nextSerial)
    {
      if identityCache == null {
        return;
      }
      var tags := IdentityTagsToPurge(c);
      InvalidateCache(identityCache, identityCan, tags);
    }
  }
}
