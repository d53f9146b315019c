/**
 The Redis-backed tagged cache, and its refinement of the in-memory one. Redis drops a cell from
 the instant its time to live has elapsed; the per-key tag sets carry a time to live, the tag
 index and the key index do not. The four key-name families are four maps, which `NamesDisjoint`
 justifies.
 */
module RedisCache {
  import opened Prelude
  import opened MemoryCache

  // ------------------------------------------------------------------- key names

  function TrimColons(s: string): string {
    if s != "" && s[0] == ':' then TrimColons(s[1..]) else s
  }

  function WithPrefix(prefix: string, key: string): string {
    if prefix == "" then TrimColons(key) else prefix + ":" + TrimColons(key)
  }

  datatype Name = ValueName(key: string) | TagsName(key: string) | IndexName(tag: string) | KeysName

  const TAGS := "__tags__:"
  const TAG := "__tag__:"
  const INDEX := "__index__:"

  function Render(prefix: string, n: Name): string {
    match n
    case ValueName(k) => WithPrefix(prefix, k)
    case TagsName(k) => WithPrefix(prefix, TAGS + k)
    case IndexName(t) => WithPrefix(prefix, TAG + t)
    case KeysName => WithPrefix(prefix, INDEX + "keys")
  }

  predicate PlainKey(k: string) {
    && (k == "" || k[0] != ':')
    && !(TAGS <= k) && !(TAG <= k) && !(INDEX <= k)
  }

  function Bare(n: Name): string {
    match n
    case ValueName(k) => k
    case TagsName(k) => TAGS + k
    case IndexName(t) => TAG + t
    case KeysName => INDEX + "keys"
  }

  lemma RenderBare(prefix: string, n: Name)
    requires n.ValueName? ==> PlainKey(n.key)
    ensures Render(prefix, n) == if prefix == "" then Bare(n) else prefix + ":" + Bare(n)
  {
    assert Bare(n) == "" || Bare(n)[0] != ':';
    assert TrimColons(Bare(n)) == Bare(n);
  }

  // The values, tag sets, tag indexes and key index of a cache never share a Redis key.
  lemma NamesDisjoint(prefix: string, m: Name, n: Name)
    requires m.ValueName? ==> PlainKey(m.key)
    requires n.ValueName? ==> PlainKey(n.key)
    requires Render(prefix, m) == Render(prefix, n)
    ensures m == n
  {
    RenderBare(prefix, m);
    RenderBare(prefix, n);
    assert Bare(m) == Bare(n) by {
      if prefix != "" {
        assert Render(prefix, m)[|prefix| + 1..] == Bare(m);
        assert Render(prefix, n)[|prefix| + 1..] == Bare(n);
      }
    }
    assert TAGS[5] == 's' && TAG[5] == '_' && INDEX[2] == 'i' && TAGS[2] == 't' && TAG[2] == 't';
    assert m.TagsName? ==> Bare(m)[2] == 't' && Bare(m)[5] == 's' && TAGS <= Bare(m) && Bare(m)[9..] == m.key;
    assert n.TagsName? ==> Bare(n)[2] == 't' && Bare(n)[5] == 's' && TAGS <= Bare(n) && Bare(n)[9..] == n.key;
    assert m.IndexName? ==> Bare(m)[2] == 't' && Bare(m)[5] == '_' && TAG <= Bare(m) && Bare(m)[8..] == m.tag;
    assert n.IndexName? ==> Bare(n)[2] == 't' && Bare(n)[5] == '_' && TAG <= Bare(n) && Bare(n)[8..] == n.tag;
    assert m.KeysName? ==> Bare(m)[2] == 'i' && INDEX <= Bare(m);
    assert n.KeysName? ==> Bare(n)[2] == 'i' && INDEX <= Bare(n);
  }

  // ---------------------------------------------------------------------- state

  datatype Timed<X> = Timed(content: X, expiresAt: Option<int>)

  predicate Gone<X>(c: Timed<X>, now: int) {
    c.expiresAt.Some? && c.expiresAt.value <= now
  }

  datatype RedisState<V> = RedisState(
    values: map<string, Timed<V>>, tagSets: map<string, Timed<set<string>>>,
    index: map<string, set<string>>, keys: set<string>)

  function RedisLookup<V>(s: RedisState<V>, key: string, now: int): Option<V> {
    if key in s.values && !Gone(s.values[key], now) then Some(s.values[key].content) else None
  }

  // SMEMBERS of a per-key tag set.
  function LiveTags<V>(s: RedisState<V>, key: string, now: int): set<string> {
    if key in s.tagSets && !Gone(s.tagSets[key], now) then s.tagSets[key].content else {}
  }

  // The keys that deleting `keys` takes out of the index of a tag.
  function Unindexed<V>(s: RedisState<V>, tag: string, keys: set<string>, now: int): set<string> {
    set k | k in keys && tag in LiveTags(s, k, now)
  }

  function IndexWithout<V>(s: RedisState<V>, keys: set<string>, now: int): map<string, set<string>> {
    map t | t in s.index && s.index[t] - Unindexed(s, t, keys, now) != {} ::
      s.index[t] - Unindexed(s, t, keys, now)
  }

  function AfterDeletes<V>(s: RedisState<V>, keys: set<string>, now: int): RedisState<V> {
    RedisState(s.values - keys, s.tagSets - keys, IndexWithout(s, keys, now), s.keys - keys)
  }

  // A fresh value under its tags, once whatever the key held is gone.
  function Stored<V>(d: RedisState<V>, key: string, value: V, ttlSeconds: Option<int>, tags: set<string>, now: int)
    : RedisState<V>
  {
    RedisState(
      d.values[key := Timed(value, Expiry(ttlSeconds, now))],
      if tags == {} then d.tagSets - {key} else (d.tagSets - {key})[key := Timed(tags, Expiry(ttlSeconds, now))],
      map t | t in d.index.Keys + tags :: if t in tags then Bucket(d.index, t) + {key} else d.index[t],
      d.keys + {key})
  }

  function AfterSet<V>(s: RedisState<V>, key: string, value: V, ttlSeconds: Option<int>, tags: set<string>, now: int)
    : RedisState<V>
  {
    Stored(AfterDeletes(s, {key}, now), key, value, ttlSeconds, tags - {""}, now)
  }

  function AfterPurge<V>(s: RedisState<V>, tag: string, now: int): RedisState<V> {
    if Bucket(s.index, tag) == {} then s
    else
      var d := AfterDeletes(s, Bucket(s.index, tag), now);
      d.(index := d.index - {tag})
  }

  function AfterClear<V>(s: RedisState<V>, now: int): RedisState<V> {
    if s.keys == {} then s else AfterDeletes(s, s.keys, now)
  }

  // Redis holds no empty set.
  ghost predicate NoEmptySets<V>(s: RedisState<V>) {
    && (forall t :: t in s.index ==> s.index[t] != {})
    && (forall k :: k in s.tagSets ==> s.tagSets[k].content != {})
  }

  // What each operation leaves, key by key: of a value, of its tags, and in the index of a tag.
  lemma DeletesMeaning<V>(s: RedisState<V>, keys: set<string>, now: int, k: string, t: string)
    ensures var after := AfterDeletes(s, keys, now);
            && Get(after.values, k) == (if k in keys then None else Get(s.values, k))
            && Get(after.tagSets, k) == (if k in keys then None else Get(s.tagSets, k))
            && (k in Bucket(after.index, t) <==> k in Bucket(s.index, t) && !(k in keys && t in LiveTags(s, k, now)))
            && (t in after.index ==> after.index[t] != {})
            && (k in after.keys <==> k in s.keys && k !in keys)
  {
  }

  lemma SetMeaning<V>(s: RedisState<V>, key: string, value: V, ttlSeconds: Option<int>, tags: set<string>, now: int,
                      k: string, t: string)
    ensures var after, expiresAt := AfterSet(s, key, value, ttlSeconds, tags, now), Expiry(ttlSeconds, now);
            && Get(after.values, k) == (if k == key then Some(Timed(value, expiresAt)) else Get(s.values, k))
            && (k != key ==> Get(after.tagSets, k) == Get(s.tagSets, k))
            && (key in after.tagSets <==> exists tag :: tag in tags && tag != "")
            && (key in after.tagSets && k == key ==>
                  && after.tagSets[k].expiresAt == expiresAt
                  && (t in after.tagSets[k].content <==> t in tags && t != ""))
            && (k in after.keys <==> k == key || k in s.keys)
  {
    if tag :| tag in tags && tag != "" {
      assert tag in tags - {""};
    }
  }

  lemma SetIndexMeaning<V>(s: RedisState<V>, key: string, value: V, ttlSeconds: Option<int>, tags: set<string>,
                           now: int, k: string, t: string)
    ensures k in Bucket(AfterSet(s, key, value, ttlSeconds, tags, now).index, t) <==>
            || (k == key && t in tags && t != "")
            || (k in Bucket(s.index, t) && !(k == key && t in LiveTags(s, key, now)))
  {
    DeletesMeaning(s, {key}, now, k, t);
  }

  lemma PurgeMeaning<V>(s: RedisState<V>, tag: string, now: int, k: string, t: string)
    ensures var after, gone := AfterPurge(s, tag, now), k in Bucket(s.index, tag);
            && Get(after.values, k) == (if gone then None else Get(s.values, k))
            && Get(after.tagSets, k) == (if gone then None else Get(s.tagSets, k))
            && (k in Bucket(after.index, t) <==>
                  t != tag && k in Bucket(s.index, t) && !(gone && t in LiveTags(s, k, now)))
            && (k in after.keys <==> k in s.keys && !gone)
  {
    DeletesMeaning(s, Bucket(s.index, tag), now, k, t);
  }

  lemma ClearMeaning<V>(s: RedisState<V>, now: int, k: string, t: string)
    ensures var after := AfterClear(s, now);
            && Get(after.values, k) == (if k in s.keys then None else Get(s.values, k))
            && Get(after.tagSets, k) == (if k in s.keys then None else Get(s.tagSets, k))
            && (k in Bucket(after.index, t) <==>
                  k in Bucket(s.index, t) && !(k in s.keys && t in LiveTags(s, k, now)))
            && after.keys == {}
  {
    DeletesMeaning(s, s.keys, now, k, t);
  }

  lemma DeletesCompose<V>(s: RedisState<V>, keys: set<string>, key: string, now: int)
    requires key !in keys
    ensures AfterDeletes(AfterDeletes(s, keys, now), {key}, now) == AfterDeletes(s, keys + {key}, now)
  {
    var d := AfterDeletes(s, keys, now);
    assert LiveTags(d, key, now) == LiveTags(s, key, now);
    forall t ensures Unindexed(s, t, keys + {key}, now) == Unindexed(s, t, keys, now) + Unindexed(d, t, {key}, now) {
      assert forall k :: k in Unindexed(d, t, {key}, now) <==> k == key && t in LiveTags(s, key, now);
    }
    var one, all := IndexWithout(d, {key}, now), IndexWithout(s, keys + {key}, now);
    forall t ensures t in one <==> t in all
             ensures t in one ==> one[t] == all[t]
    {
      if t in s.index {
        assert s.index[t] - Unindexed(s, t, keys, now) - Unindexed(d, t, {key}, now) ==
               s.index[t] - Unindexed(s, t, keys + {key}, now);
      }
    }
    assert one == all;
    assert s.values - keys - {key} == s.values - (keys + {key});
    assert s.tagSets - keys - {key} == s.tagSets - (keys + {key});
    assert s.keys - keys - {key} == s.keys - (keys + {key});
  }

  // ------------------------------------------------------------------- commands

  function SAdd(family: map<string, set<string>>, name: string, member: string): map<string, set<string>> {
    family[name := Bucket(family, name) + {member}]
  }

  function SRem(family: map<string, set<string>>, name: string, member: string): map<string, set<string>> {
    if Bucket(family, name) - {member} == {} then family - {name}
    else family[name := Bucket(family, name) - {member}]
  }

  class RedisCache<V> {
    var state: RedisState<V>
    const defaultTtlSeconds: Option<int>

    constructor (defaultTtlSeconds: Option<int>)
      ensures state == RedisState(map[], map[], map[], {}) && NoEmptySets(state)
      ensures this.defaultTtlSeconds == defaultTtlSeconds
    {
      state, this.defaultTtlSeconds := RedisState(map[], map[], map[], {}), defaultTtlSeconds;
    }

    method Get(key: string, now: int) returns (r: Option<V>)
      ensures r == RedisLookup(state, key, now)
    {
      if key in state.values && !Gone(state.values[key], now) {
        return Some(state.values[key].content);
      }
      return None;
    }

    method Delete(key: string, now: int)
      requires NoEmptySets(state)
      modifies this
      ensures NoEmptySets(state)
      ensures state == AfterDeletes(old(state), {key}, now)
    {
      var tags := LiveTags(state, key, now);
      var index := Unindex(state.index, key, tags);
      IndexByBuckets(state, key, index, now);
      state := RedisState(state.values - {key}, state.tagSets - {key}, index, state.keys - {key});
    }

    method Set(key: string, value: V, ttlSeconds: Option<int>, tags: set<string>, now: int)
      requires NoEmptySets(state)
      modifies this
      ensures NoEmptySets(state)
      ensures state == AfterSet(old(state), key, value, ttlSeconds.OrElse(defaultTtlSeconds), tags, now)
    {
      Delete(key, now);
      Store(key, value, ttlSeconds.OrElse(defaultTtlSeconds), tags - {""}, now);
    }

    method Store(key: string, value: V, ttl: Option<int>, tags: set<string>, now: int)
      requires NoEmptySets(state)
      modifies this
      ensures NoEmptySets(state)
      ensures state == Stored(old(state), key, value, ttl, tags, now)
    {
      var tagSets := state.tagSets - {key};
      if tags != {} {
        tagSets := tagSets[key := Timed(tags, None)];
        if ttl.Some? {
          tagSets := tagSets[key := Timed(tags, Expiry(ttl, now))];
        }
      }
      var index := Index(state.index, key, tags);
      var values := state.values[key := Timed(value, Expiry(ttl, now))];
      state := RedisState(values, tagSets, index, state.keys + {key});
    }

    // SREM from the index of every tag; an index that empties is deleted.
    method Unindex(before: map<string, set<string>>, key: string, tags: set<string>)
      returns (index: map<string, set<string>>)
      requires forall t :: t in before ==> before[t] != {}
      ensures forall t :: t in index ==> index[t] != {}
      ensures forall t, k {:trigger k in Bucket(index, t)} ::
                k in Bucket(index, t) <==> k in Bucket(before, t) && !(k == key && t in tags)
    {
      index := before;
      var rest := tags;
      while rest != {}
        invariant rest <= tags
        invariant forall t :: t in index ==> index[t] != {}
        invariant forall t, k {:trigger k in Bucket(index, t)} ::
                    k in Bucket(index, t) <==> k in Bucket(before, t) && !(k == key && t in tags - rest)
        decreases rest
      {
        var tag :| tag in rest;
        ghost var prior := index;
        index := SRem(index, tag, key);
        if |Bucket(index, tag)| == 0 {
          index := index - {tag};
        }
        UnindexStep(prior, index, tag, key);
        rest := rest - {tag};
      }
    }

    // SADD to the index of every tag.
    method Index(before: map<string, set<string>>, key: string, tags: set<string>)
      returns (index: map<string, set<string>>)
      requires forall t :: t in before ==> before[t] != {}
      ensures index == map t | t in before.Keys + tags :: if t in tags then Bucket(before, t) + {key} else before[t]
      ensures forall t :: t in index ==> index[t] != {}
    {
      index := before;
      var rest := tags;
      while rest != {}
        invariant rest <= tags
        invariant index == map t | t in before.Keys + (tags - rest) ::
                    if t in tags - rest then Bucket(before, t) + {key} else before[t]
        decreases rest
      {
        var tag :| tag in rest;
        index := SAdd(index, tag, key);
        rest := rest - {tag};
      }
      assert tags - rest == tags;
    }

    method PurgeByTag(tag: string, now: int)
      requires NoEmptySets(state)
      modifies this
      ensures NoEmptySets(state)
      ensures state == AfterPurge(old(state), tag, now)
    {
      var keys := Bucket(state.index, tag);
      if keys == {} {
        return;
      }
      DeleteAll(keys, now);
      state := state.(index := state.index - {tag});
    }

    method Clear(now: int)
      requires NoEmptySets(state)
      modifies this
      ensures NoEmptySets(state)
      ensures state == AfterClear(old(state), now)
    {
      var keys := state.keys;
      if keys == {} {
        return;
      }
      DeleteAll(keys, now);
      assert state.keys == {};
      state := state.(keys := {});
    }

    // Deletes of several keys, in any order.
    method DeleteAll(keys: set<string>, now: int)
      requires NoEmptySets(state)
      modifies this
      ensures NoEmptySets(state)
      ensures state == AfterDeletes(old(state), keys, now)
    {
      var rest := keys;
      DeletesNothing(state, now);
      assert keys - rest == {};
      while rest != {}
        invariant rest <= keys && NoEmptySets(state)
        invariant state == AfterDeletes(old(state), keys - rest, now)
        decreases rest
      {
        var key :| key in rest;
        DeletesCompose(old(state), keys - rest, key, now);
        Delete(key, now);
        assert keys - rest + {key} == keys - (rest - {key});
        rest := rest - {key};
      }
      assert keys - rest == keys;
    }
  }

  lemma UnindexStep(prior: map<string, set<string>>, index: map<string, set<string>>, tag: string, key: string)
    requires forall t :: t in prior ==> prior[t] != {}
    requires var removed := SRem(prior, tag, key);
             index == if |Bucket(removed, tag)| == 0 then removed - {tag} else removed
    ensures forall t :: t in index ==> index[t] != {}
    ensures forall t :: Bucket(index, t) == if t == tag then Bucket(prior, t) - {key} else Bucket(prior, t)
  {
  }

  lemma DeletesNothing<V>(s: RedisState<V>, now: int)
    requires NoEmptySets(s)
    ensures AfterDeletes(s, {}, now) == s
  {
    forall t ensures Bucket(s.index, t) - Unindexed(s, t, {}, now) == Bucket(s.index, t) {
      assert Unindexed(s, t, {}, now) == {};
    }
    assert forall t :: t in s.index ==> s.index[t] - Unindexed(s, t, {}, now) == Bucket(s.index, t);
    assert IndexWithout(s, {}, now) == s.index;
    assert s.values - {} == s.values && s.tagSets - {} == s.tagSets && s.keys - {} == s.keys;
  }

  lemma IndexByBuckets<V>(s: RedisState<V>, key: string, index: map<string, set<string>>, now: int)
    requires forall t :: t in index ==> index[t] != {}
    requires forall t, k {:trigger k in Bucket(index, t)} ::
               k in Bucket(index, t) <==> k in Bucket(s.index, t) && !(k == key && t in LiveTags(s, key, now))
    ensures index == IndexWithout(s, {key}, now)
  {
    assert forall t, k :: k in Unindexed(s, t, {key}, now) <==> k == key && t in LiveTags(s, key, now);
    var wanted := IndexWithout(s, {key}, now);
    forall t ensures t in index <==> t in wanted
             ensures t in index ==> index[t] == wanted[t]
    {
      assert Bucket(index, t) == Bucket(s.index, t) - Unindexed(s, t, {key}, now);
    }
  }
}
