/**
 The Redis cache refines the in-memory one: over every run of the same calls, whatever it answers
 the in-memory cache answers too. Events carry the time to live that is left once the default has
 been filled in.
 */
module CacheRefinement {
  import opened Prelude
  import opened MemoryCache
  import opened TimedMap
  import opened RedisCache

  type CacheEvent<V> = Event<string, V, string>

  function RedisApply<V>(s: RedisState<V>, e: CacheEvent<V>): RedisState<V> {
    match e.op
    case SetOp(k, v, ttl, tags) => AfterSet(s, k, v, ttl, tags, e.at)
    case GetOp(_) => s
    case DeleteOp(k) => AfterDeletes(s, {k}, e.at)
    case PurgeOp(t) => AfterPurge(s, t, e.at)
    case ClearOp => AfterClear(s, e.at)
    case FireOp(_, _) => s  // a timer of the in-memory cache
  }

  function RedisRun<V>(h: seq<CacheEvent<V>>): RedisState<V> {
    if h == [] then RedisState(map[], map[], map[], {}) else RedisApply(RedisRun(Front(h)), Last(h))
  }

  method PerformRedis<V>(cache: RedisCache<V>, e: CacheEvent<V>) returns (r: Option<V>)
    requires NoEmptySets(cache.state) && cache.defaultTtlSeconds == None
    modifies cache
    ensures NoEmptySets(cache.state)
    ensures cache.state == RedisApply(old(cache.state), e)
    ensures e.op.GetOp? ==> r == RedisLookup(old(cache.state), e.op.key, e.at)
  {
    r := None;
    match e.op
    case SetOp(k, v, ttl, tags) => cache.Set(k, v, ttl, tags, e.at);
    case GetOp(k) => r := cache.Get(k, e.at);
    case DeleteOp(k) => cache.Delete(k, e.at);
    case PurgeOp(t) => cache.PurgeByTag(t, e.at);
    case ClearOp => cache.Clear(e.at);
    case FireOp(_, _) =>
  }

  // -------------------------------------------------------------- the simulation

  // A live Redis value is the entry of the in-memory cache, and every index it belongs in knows it.
  ghost predicate Mirrors<V>(s: RedisState<V>, entries: Entries<string, V, string>, now: int, key: string) {
    key in s.values && !Gone(s.values[key], now) ==>
      && key in entries
      && entries[key].value == s.values[key].content
      && entries[key].expiresAt == s.values[key].expiresAt
      && entries[key].tags == LiveTags(s, key, now)
      && (key in s.tagSets ==> s.tagSets[key].expiresAt == s.values[key].expiresAt)
      && key in s.keys
      && forall t :: t in entries[key].tags ==> key in Bucket(s.index, t)
  }

  ghost predicate Refines<V>(s: RedisState<V>, entries: Entries<string, V, string>, now: int) {
    forall key :: Mirrors(s, entries, now, key)
  }

  // Tags are non-empty strings; Redis ignores the others.
  predicate TagsGiven<V>(e: CacheEvent<V>) {
    e.op.SetOp? ==> "" !in e.op.tags
  }

  lemma LaterRefines<V>(s: RedisState<V>, entries: Entries<string, V, string>, earlier: int, now: int)
    requires Refines(s, entries, earlier) && earlier <= now
    ensures Refines(s, entries, now)
  {
    forall key ensures Mirrors(s, entries, now, key) {
      assert Mirrors(s, entries, earlier, key);
    }
  }

  lemma DeletesMirror<V>(s: RedisState<V>, entries: Entries<string, V, string>, keys: set<string>, now: int,
                         left: Entries<string, V, string>)
    requires Refines(s, entries, now)
    requires forall k :: k in entries && k !in keys && k in s.values && !Gone(s.values[k], now) ==>
               k in left && left[k] == entries[k]
    ensures Refines(AfterDeletes(s, keys, now), left, now)
  {
    var d := AfterDeletes(s, keys, now);
    forall key ensures Mirrors(d, left, now, key) {
      assert Mirrors(s, entries, now, key);
      if key in d.values && !Gone(d.values[key], now) {
        forall t | t in left[key].tags ensures key in Bucket(d.index, t) {
          assert key in Bucket(s.index, t) && key !in Unindexed(s, t, keys, now);
        }
      }
    }
  }

  lemma StoredMirrors<V>(d: RedisState<V>, entries: Entries<string, V, string>, key: string, value: V,
                         ttlSeconds: Option<int>, tags: set<string>, now: int, serial: nat)
    requires Refines(d, entries, now)
    ensures Refines(Stored(d, key, value, ttlSeconds, tags, now),
                    entries[key := Entry(value, Expiry(ttlSeconds, now), tags, serial)], now)
  {
    var s, left := Stored(d, key, value, ttlSeconds, tags, now),
                   entries[key := Entry(value, Expiry(ttlSeconds, now), tags, serial)];
    forall k ensures Mirrors(s, left, now, k) {
      assert Mirrors(d, entries, now, k);
    }
  }

  lemma LiveFacts<V>(s: RedisState<V>, entries: Entries<string, V, string>, now: int)
    requires Refines(s, entries, now)
    ensures forall k :: k in s.values && !Gone(s.values[k], now) ==>
              k in entries && k in s.keys && forall t :: t in entries[k].tags ==> k in Bucket(s.index, t)
  {
    forall k | k in s.values && !Gone(s.values[k], now)
      ensures k in entries && k in s.keys && forall t :: t in entries[k].tags ==> k in Bucket(s.index, t)
    {
      assert Mirrors(s, entries, now, k);
    }
  }

  lemma StepRefines<V>(s: RedisState<V>, entries: Entries<string, V, string>, e: CacheEvent<V>, serial: nat)
    requires Refines(s, entries, e.at) && TagsGiven(e)
    ensures Refines(RedisApply(s, e), Apply(entries, e, serial), e.at)
  {
    var left := Apply(entries, e, serial);
    LiveFacts(s, entries, e.at);
    match e.op
    case SetOp(k, v, ttl, tags) =>
      DeletesMirror(s, entries, {k}, e.at, entries);
      assert tags - {""} == tags;
      StoredMirrors(AfterDeletes(s, {k}, e.at), entries, k, v, ttl, tags, e.at, serial);
    case DeleteOp(k) => DeletesMirror(s, entries, {k}, e.at, left);
    case PurgeOp(t) =>
      var keys := Bucket(s.index, t);
      if keys == {} {
        forall k ensures Mirrors(s, left, e.at, k) {
          assert Mirrors(s, entries, e.at, k);
        }
      } else {
        DeletesMirror(s, entries, keys, e.at, left);
        var d := AfterDeletes(s, keys, e.at);
        forall k ensures Mirrors(d.(index := d.index - {t}), left, e.at, k) {
          assert Mirrors(d, left, e.at, k);
        }
      }
    case ClearOp =>
      if s.keys != {} {
        DeletesMirror(s, entries, s.keys, e.at, left);
      }
    case GetOp(key) =>
      forall k ensures Mirrors(s, left, e.at, k) { assert Mirrors(s, entries, e.at, k); }
    case FireOp(_, _) =>
      forall k ensures Mirrors(s, left, e.at, k) { assert Mirrors(s, entries, e.at, k); }
  }

  lemma {:induction false} RunRefines<V>(h: seq<CacheEvent<V>>, now: int)
    requires ClockNondecreasing(h, now) && forall i :: 0 <= i < |h| ==> TagsGiven(h[i])
    ensures Refines(RedisRun(h), Run(h), now)
  {
    if h != [] {
      RunRefines(Front(h), Last(h).at);
      StepRefines(RedisRun(Front(h)), Run(Front(h)), Last(h), |h| - 1);
      LaterRefines(RedisRun(h), Run(h), Last(h).at, now);
    }
  }

  // Any value the Redis cache answers is the one the in-memory cache answers.
  lemma RedisAnswersRefine<V>(h: seq<CacheEvent<V>>, key: string, now: int)
    requires ClockNondecreasing(h, now) && forall i :: 0 <= i < |h| ==> TagsGiven(h[i])
    ensures RedisLookup(RedisRun(h), key, now).Some? ==>
              RedisLookup(RedisRun(h), key, now) == Lookup(Run(h), key, now)
  {
    RunRefines(h, now);
    assert Mirrors(RedisRun(h), Run(h), now, key);
  }

  // --------------------------------------------------------------- where they agree

  ghost predicate Agree<V>(s: RedisState<V>, entries: Entries<string, V, string>, now: int) {
    forall key :: RedisLookup(s, key, now) == Lookup(entries, key, now)
  }

  // The index of a tag still names a live key from an earlier life, under other tags.
  ghost predicate Leftover<V>(s: RedisState<V>, tag: string, now: int) {
    exists key :: key in Bucket(s.index, tag) && RedisLookup(s, key, now).Some? && tag !in LiveTags(s, key, now)
  }

  // Caches that agree stay in agreement, except over a purge whose index holds such a leftover.
  lemma AgreementExact<V>(s: RedisState<V>, entries: Entries<string, V, string>, e: CacheEvent<V>, serial: nat)
    requires Refines(s, entries, e.at) && Agree(s, entries, e.at) && TagsGiven(e)
    ensures Agree(RedisApply(s, e), Apply(entries, e, serial), e.at) <==>
            !(e.op.PurgeOp? && Leftover(s, e.op.tag, e.at))
  {
    var s', left := RedisApply(s, e), Apply(entries, e, serial);
    forall key ensures RedisLookup(s', key, e.at) == Lookup(left, key, e.at) <==>
                       !(e.op.PurgeOp? && key in Bucket(s.index, e.op.tag) && RedisLookup(s, key, e.at).Some?
                         && e.op.tag !in LiveTags(s, key, e.at))
    {
      assert Mirrors(s, entries, e.at, key);
      assert RedisLookup(s, key, e.at) == Lookup(entries, key, e.at);
    }
  }

  // Caches that agree still agree when only the clock moves on.
  lemma LaterAgree<V>(s: RedisState<V>, entries: Entries<string, V, string>, before: int, now: int)
    requires Refines(s, entries, before) && Agree(s, entries, before) && before <= now
    ensures Agree(s, entries, now)
  {
    forall key ensures RedisLookup(s, key, now) == Lookup(entries, key, now) {
      assert Mirrors(s, entries, before, key);
      assert RedisLookup(s, key, before) == Lookup(entries, key, before);
    }
  }

  // The two caches agree right after event n.
  ghost predicate AgreeAfter<V>(h: seq<CacheEvent<V>>, n: nat)
    requires n < |h|
  {
    Agree(RedisRun(h[..n + 1]), Run(h[..n + 1]), h[n].at)
  }

  // Event n purges a tag that has a leftover.
  ghost predicate PurgesLeftover<V>(h: seq<CacheEvent<V>>, n: nat)
    requires n < |h|
  {
    h[n].op.PurgeOp? && Leftover(RedisRun(h[..n]), h[n].op.tag, h[n].at)
  }

  // Over a whole run, the caches agree after every event exactly when no event purges a tag that
  // has a leftover.
  lemma {:induction false} RunAgreementExact<V>(h: seq<CacheEvent<V>>, now: int)
    requires ClockNondecreasing(h, now) && forall i :: 0 <= i < |h| ==> TagsGiven(h[i])
    ensures (forall n: nat :: n < |h| ==> AgreeAfter(h, n)) <==> (forall n: nat :: n < |h| ==> !PurgesLeftover(h, n))
  {
    if h != [] {
      var front, last := Front(h), |h| - 1;
      RunAgreementExact(front, h[last].at);
      forall n: nat | n < last
        ensures AgreeAfter(front, n) <==> AgreeAfter(h, n)
        ensures PurgesLeftover(front, n) <==> PurgesLeftover(h, n)
      {
        SamePrefixAgrees(h, n);
      }
      if forall n: nat :: n < last ==> AgreeAfter(h, n) {
        LastAgreement(h);
      }
    }
  }

  lemma SamePrefixAgrees<V>(h: seq<CacheEvent<V>>, n: nat)
    requires n < |h| - 1
    ensures AgreeAfter(Front(h), n) <==> AgreeAfter(h, n)
    ensures PurgesLeftover(Front(h), n) <==> PurgesLeftover(h, n)
  {
    assert Front(h)[..n] == h[..n] && Front(h)[..n + 1] == h[..n + 1];
  }

  lemma LastAgreement<V>(h: seq<CacheEvent<V>>)
    requires h != [] && ClockNondecreasing(h, Last(h).at) && forall i :: 0 <= i < |h| ==> TagsGiven(h[i])
    requires forall n: nat :: n < |h| - 1 ==> AgreeAfter(h, n)
    ensures AgreeAfter(h, |h| - 1) <==> !PurgesLeftover(h, |h| - 1)
  {
    var front, last := Front(h), |h| - 1;
    AgreeBefore(h);
    assert h[..last] == front && h[..last + 1] == h;
    AgreementExact(RedisRun(front), Run(front), h[last], last);
  }

  // Where they agreed after the event before, they agree when the last event comes.
  lemma AgreeBefore<V>(h: seq<CacheEvent<V>>)
    requires h != [] && ClockNondecreasing(h, Last(h).at) && forall i :: 0 <= i < |h| ==> TagsGiven(h[i])
    requires forall n: nat :: n < |h| - 1 ==> AgreeAfter(h, n)
    ensures Refines(RedisRun(Front(h)), Run(Front(h)), Last(h).at)
    ensures Agree(RedisRun(Front(h)), Run(Front(h)), Last(h).at)
  {
    var front := Front(h);
    RunRefines(front, Last(h).at);
    if front != [] {
      var n := |front| - 1;
      RunRefines(front, h[n].at);
      assert AgreeAfter(h, n) && h[..n + 1] == front;
      LaterAgree(RedisRun(front), Run(front), h[n].at, Last(h).at);
    }
  }

  // Any time to live can leave one behind: set under a tag, expire, set without it, purge the tag.
  lemma LeftoverLosesEntry<V>(key: string, tag: string, first: V, second: V, ttl: int)
    requires ttl > 0 && tag != ""
    ensures var h: seq<CacheEvent<V>> := [Event(SetOp(key, first, Some(ttl), {tag}), 0),
                     Event(SetOp(key, second, None, {}), ttl * 1000), Event(PurgeOp(tag), ttl * 1000)];
            RedisLookup(RedisRun(h), key, ttl * 1000) == None && Lookup(Run(h), key, ttl * 1000) == Some(second)
  {
    var at := ttl * 1000;
    var e0: CacheEvent<V> := Event(SetOp(key, first, Some(ttl), {tag}), 0);
    var e1: CacheEvent<V> := Event(SetOp(key, second, None, {}), at);
    var e2: CacheEvent<V> := Event(PurgeOp(tag), at);
    var h := [e0, e1, e2];
    assert Front(h) == [e0, e1] && Front([e0, e1]) == [e0] && Front([e0]) == [];
    var start: RedisState<V> := RedisState(map[], map[], map[], {});
    assert {tag} - {""} == {tag};
    assert AfterDeletes(start, {key}, 0) == start;
    var s0 := Stored(start, key, first, Some(ttl), {tag}, 0);
    assert RedisRun([e0]) == s0;
    assert Unindexed(s0, tag, {key}, at) == {};
    var d := AfterDeletes(s0, {key}, at);
    assert key in Bucket(d.index, tag);
    var s1 := RedisRun([e0, e1]);
    assert s1 == Stored(d, key, second, None, {} - {""}, at);
    assert key in Bucket(s1.index, tag);
    assert key !in RedisApply(s1, e2).values;
    var m1 := Run([e0, e1]);
    assert m1[key].value == second && m1[key].tags == {} && m1[key].expiresAt == None;
    assert key in WithoutTags(m1, {tag});
  }

  // Without times to live nothing is ever left over.
  ghost predicate InStep<V>(s: RedisState<V>, entries: Entries<string, V, string>) {
    && s.values.Keys == entries.Keys == s.keys
    && (forall k :: k in entries ==>
          s.values[k] == Timed(entries[k].value, None) && entries[k].expiresAt == None)
    && (forall k :: k in s.tagSets ==> k in entries)
    && (forall k :: k in entries ==> entries[k].tags == if k in s.tagSets then s.tagSets[k].content else {})
    && (forall k :: k in s.tagSets ==> s.tagSets[k].expiresAt == None)
    && (forall t, k {:trigger k in Bucket(s.index, t)} ::
          k in Bucket(s.index, t) <==> k in entries && t in entries[k].tags)
  }

  predicate NoTtl<V>(e: CacheEvent<V>) {
    e.op.SetOp? ==> e.op.ttlSeconds.None?
  }

  lemma DeletesInStep<V>(s: RedisState<V>, entries: Entries<string, V, string>, keys: set<string>, now: int)
    requires InStep(s, entries)
    ensures InStep(AfterDeletes(s, keys, now), entries - keys)
  {
    var d := AfterDeletes(s, keys, now);
    forall t, k ensures k in Bucket(d.index, t) <==> k in entries - keys && t in entries[k].tags {
      assert k in Unindexed(s, t, keys, now) <==> k in keys && k in entries && t in entries[k].tags;
      assert k in Bucket(d.index, t) <==> k in Bucket(s.index, t) && k !in Unindexed(s, t, keys, now);
    }
  }

  lemma SetInStep<V>(d: RedisState<V>, entries: Entries<string, V, string>, key: string, value: V,
                     tags: set<string>, now: int, serial: nat)
    requires InStep(d, entries) && key !in entries
    ensures InStep(Stored(d, key, value, None, tags, now), entries[key := Entry(value, None, tags, serial)])
  {
    var s, left := Stored(d, key, value, None, tags, now), entries[key := Entry(value, None, tags, serial)];
    forall t, k ensures k in Bucket(s.index, t) <==> k in left && t in left[k].tags {
      assert k in Bucket(d.index, t) <==> k in entries && t in entries[k].tags;
    }
  }

  lemma TaggedKeys<V>(s: RedisState<V>, entries: Entries<string, V, string>, tag: string)
    requires InStep(s, entries)
    ensures entries - Bucket(s.index, tag) == WithoutTags(entries, {tag})
  {
    assert forall k :: k in Bucket(s.index, tag) <==> k in entries && tag in entries[k].tags;
  }

  lemma PurgeInStep<V>(s: RedisState<V>, entries: Entries<string, V, string>, tag: string, now: int)
    requires InStep(s, entries)
    ensures InStep(AfterPurge(s, tag, now), WithoutTags(entries, {tag}))
  {
    var keys := Bucket(s.index, tag);
    TaggedKeys(s, entries, tag);
    DeletesInStep(s, entries, keys, now);
    if keys != {} {
      DropInStep(AfterDeletes(s, keys, now), entries - keys, tag);
    }
  }

  // Dropping the index of a tag that no entry carries.
  lemma DropInStep<V>(d: RedisState<V>, entries: Entries<string, V, string>, tag: string)
    requires InStep(d, entries) && forall k :: k in entries ==> tag !in entries[k].tags
    ensures InStep(d.(index := d.index - {tag}), entries)
  {
    assert forall k :: k !in Bucket(d.index, tag);
    assert forall t :: Bucket(d.index - {tag}, t) == Bucket(d.index, t);
  }

  lemma ReplaceInStep<V>(s: RedisState<V>, entries: Entries<string, V, string>, key: string, value: V,
                         tags: set<string>, now: int, serial: nat)
    requires InStep(s, entries) && "" !in tags
    ensures InStep(AfterSet(s, key, value, None, tags, now), entries[key := Entry(value, None, tags, serial)])
  {
    DeletesInStep(s, entries, {key}, now);
    assert tags - {""} == tags;
    SetInStep(AfterDeletes(s, {key}, now), entries - {key}, key, value, tags, now, serial);
    var entry := Entry(value, None, tags, serial);
    assert (entries - {key})[key := entry] == entries[key := entry];
  }

  lemma StepInStep<V>(s: RedisState<V>, entries: Entries<string, V, string>, e: CacheEvent<V>, serial: nat)
    requires InStep(s, entries) && TagsGiven(e) && NoTtl(e)
    ensures InStep(RedisApply(s, e), Apply(entries, e, serial))
  {
    match e.op
    case SetOp(k, v, _, tags) => ReplaceInStep(s, entries, k, v, tags, e.at, serial);
    case DeleteOp(k) =>
      DeletesInStep(s, entries, {k}, e.at);
      assert entries - {k} == Without(entries, k);
    case PurgeOp(t) => PurgeInStep(s, entries, t, e.at);
    case ClearOp =>
      if s.keys != {} {
        DeletesInStep(s, entries, s.keys, e.at);
        assert entries - s.keys == map[];
      }
    case GetOp(_) =>
    case FireOp(_, _) =>
  }

  // If no entry is given a time to live, the two caches always answer alike.
  lemma {:induction false} WithoutTtlAlike<V>(h: seq<CacheEvent<V>>, key: string, now: int)
    requires forall i :: 0 <= i < |h| ==> TagsGiven(h[i]) && NoTtl(h[i])
    ensures InStep(RedisRun(h), Run(h))
    ensures RedisLookup(RedisRun(h), key, now) == Lookup(Run(h), key, now)
  {
    if h != [] {
      WithoutTtlAlike(Front(h), key, now);
      StepInStep(RedisRun(Front(h)), Run(Front(h)), Last(h), |h| - 1);
    }
  }
}
