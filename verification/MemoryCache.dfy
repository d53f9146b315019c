/**
 The in-memory tagged cache. Its abstract state is `entries` alone: the tag index is pinned down
 by `IndexExact`, so the contracts speak of entries only. The clock is a parameter of the
 operations that read it. An entry carries the serial number of the `Set` that made it, which
 plays the role of object identity in the timer callback.
 */
module MemoryCache {
  import opened Prelude

  datatype Entry<V, T> = Entry(value: V, expiresAt: Option<int>, tags: set<T>, serial: nat)

  type Entries<K, V, T> = map<K, Entry<V, T>>

  function Expiry(ttlSeconds: Option<int>, now: int): Option<int> {
    match ttlSeconds
    case None => None
    case Some(ttl) => Some(now + ttl * 1000)
  }

  predicate Expired<V, T>(e: Entry<V, T>, now: int) {
    e.expiresAt.Some? && e.expiresAt.value <= now
  }

  // What `get` answers.
  function Lookup<K, V, T>(entries: Entries<K, V, T>, key: K, now: int): Option<V> {
    if key in entries && !Expired(entries[key], now) then Some(entries[key].value) else None
  }

  function Without<K, V, T>(entries: Entries<K, V, T>, key: K): Entries<K, V, T> {
    map k | k in entries && k != key :: entries[k]
  }

  // The timer callback removes the entry it captured, if that is still stored and has expired.
  function AfterExpiration<K, V, T>(entries: Entries<K, V, T>, key: K, serial: nat, now: int): Entries<K, V, T> {
    if key in entries && entries[key].serial == serial && Expired(entries[key], now)
    then Without(entries, key)
    else entries
  }

  // What is left when every entry that carries one of `tags` is gone.
  function WithoutTags<K, V, T>(entries: Entries<K, V, T>, tags: set<T>): Entries<K, V, T> {
    map k | k in entries && entries[k].tags !! tags :: entries[k]
  }

  function Bucket<K, T>(index: map<T, set<K>>, tag: T): set<K> {
    if tag in index then index[tag] else {}
  }

  // The index is the inverse of the entries' tags, and holds no empty bucket.
  ghost predicate IndexExact<K(!new), V, T(!new)>(entries: Entries<K, V, T>, index: map<T, set<K>>) {
    && (forall t :: t in index ==> index[t] != {})
    && (forall t, k {:trigger k in Bucket(index, t)} ::
          k in Bucket(index, t) <==> k in entries && t in entries[k].tags)
  }

  class MemoryCache<K(==,!new), V, T(==,!new)> {
    var entries: Entries<K, V, T>
    var tagIndex: map<T, set<K>>
    // Pending timers: the serial number of the entry each one captured, and its key.
    var timers: map<nat, K>
    var nextSerial: nat

    ghost predicate Valid()
      reads this
    {
      && IndexExact(entries, tagIndex)
      && (forall k :: k in entries ==> entries[k].serial < nextSerial)
      && (forall n :: n in timers ==>
            n < nextSerial && timers[n] in entries && entries[timers[n]].serial == n)
    }

    constructor ()
      ensures Valid()
      ensures entries == map[] && tagIndex == map[] && timers == map[]
    {
      entries, tagIndex, timers, nextSerial := map[], map[], map[], 0;
    }

    method Get(key: K, now: int) returns (r: Option<V>)
      requires Valid()
      modifies this
      ensures Valid()
      ensures r == Lookup(old(entries), key, now)
      ensures entries == if key in old(entries) && Expired(old(entries)[key], now)
                         then Without(old(entries), key) else old(entries)
      ensures nextSerial == old(nextSerial)
    {
      if key !in entries {
        return None;
      }
      var entry := entries[key];
      if Expired(entry, now) {
        Evict(key, entry);
        return None;
      }
      return Some(entry.value);
    }

    method Set(key: K, value: V, ttlSeconds: Option<int>, tags: set<T>, now: int)
      requires Valid()
      modifies this
      ensures Valid()
      ensures entries == old(entries)[key := Entry(value, Expiry(ttlSeconds, now), tags, old(nextSerial))]
      ensures nextSerial == old(nextSerial) + 1
      ensures old(nextSerial) in timers <==> ttlSeconds.Some?
    {
      Delete(key);
      var entry := Entry(value, Expiry(ttlSeconds, now), tags, nextSerial);
      if entry.expiresAt.Some? {
        timers := timers[nextSerial := key];
      }
      nextSerial := nextSerial + 1;
      entries := entries[key := entry];
      var rest := tags;
      ghost var before := tagIndex;
      while rest != {}
        invariant rest <= tags
        invariant entries == old(entries)[key := entry]
        invariant nextSerial == old(nextSerial) + 1
        invariant forall k :: k in entries ==> entries[k].serial < nextSerial
        invariant forall n :: n in timers ==>
                    n < nextSerial && timers[n] in entries && entries[timers[n]].serial == n
        invariant old(nextSerial) in timers <==> ttlSeconds.Some?
        invariant forall t :: t in tagIndex ==> tagIndex[t] != {}
        invariant forall t, k {:trigger k in Bucket(tagIndex, t)} ::
                    k in Bucket(tagIndex, t) <==> k in Bucket(before, t) || (k == key && t in tags - rest)
        decreases rest
      {
        var tag :| tag in rest;
        ghost var prior := tagIndex;
        tagIndex := tagIndex[tag := Bucket(tagIndex, tag) + {key}];
        assert forall t :: Bucket(tagIndex, t) == if t == tag then Bucket(prior, t) + {key} else Bucket(prior, t);
        rest := rest - {tag};
      }
    }

    method Delete(key: K)
      requires Valid()
      modifies this
      ensures Valid()
      ensures entries == Without(old(entries), key)
      ensures nextSerial == old(nextSerial)
      ensures forall n :: n in timers ==> n in old(timers)
    {
      if key !in entries {
        assert Without(entries, key) == entries;
        return;
      }
      Evict(key, entries[key]);
    }

    method PurgeByTag(tag: T)
      requires Valid()
      modifies this
      ensures Valid()
      ensures entries == WithoutTags(old(entries), {tag})
      ensures nextSerial == old(nextSerial)
    {
      if tag !in tagIndex {
        assert Bucket(tagIndex, tag) == {};
        assert forall k :: k in entries ==> k !in Bucket(tagIndex, tag);
        assert entries == WithoutTags(entries, {tag});
        return;
      }
      var keys := tagIndex[tag];
      var rest := keys;
      while rest != {}
        invariant Valid()
        invariant rest <= keys
        invariant entries == map k | k in old(entries) && k !in keys - rest :: old(entries)[k]
        invariant nextSerial == old(nextSerial)
        decreases rest
      {
        var key :| key in rest;
        Delete(key);
        rest := rest - {key};
      }
      assert forall k :: k in Bucket(old(tagIndex), tag) <==> k in keys;
      assert entries == WithoutTags(old(entries), {tag});
      DropBucket(tag);
    }

    // The last step of a purge. Every key of the bucket has been deleted by then.
    method DropBucket(tag: T)
      requires Valid()
      requires forall k :: k in entries ==> tag !in entries[k].tags
      modifies this`tagIndex
      ensures Valid()
      ensures tagIndex == old(tagIndex)
    {
      assert Bucket(tagIndex, tag) == {};
      assert tagIndex - {tag} == tagIndex;
      tagIndex := tagIndex - {tag};
    }

    method Clear()
      requires Valid()
      modifies this
      ensures Valid()
      ensures entries == map[] && tagIndex == map[] && timers == map[]
      ensures nextSerial == old(nextSerial)
    {
      var rest := entries.Keys;
      while rest != {}
        invariant Valid()
        invariant rest == entries.Keys
        invariant nextSerial == old(nextSerial)
        decreases rest
      {
        var key :| key in rest;
        Evict(key, entries[key]);
        rest := rest - {key};
      }
      tagIndex := map[];
      assert forall n :: n !in timers;
    }

    // The callback of the timer that captured the entry numbered `serial`.
    method FireTimer(serial: nat, now: int)
      requires Valid()
      requires serial in timers
      modifies this
      ensures Valid()
      ensures entries == AfterExpiration(old(entries), old(timers)[serial], serial, now)
      ensures nextSerial == old(nextSerial)
    {
      var key := timers[serial];
      timers := timers - {serial};
      if key !in entries || entries[key].serial != serial {
        return;
      }
      if Expired(entries[key], now) {
        Evict(key, entries[key]);
      }
    }

    method Evict(key: K, entry: Entry<V, T>)
      requires Valid()
      requires key in entries && entries[key] == entry
      modifies this
      ensures Valid()
      ensures entries == Without(old(entries), key)
      ensures nextSerial == old(nextSerial)
      ensures forall n :: n in timers ==> n in old(timers)
    {
      entries := entries - {key};
      timers := timers - {entry.serial};
      var rest := entry.tags;
      while rest != {}
        invariant rest <= entry.tags
        invariant forall t :: t in tagIndex ==> tagIndex[t] != {}
        invariant forall t, k {:trigger k in Bucket(tagIndex, t)} ::
                    k in Bucket(tagIndex, t) <==>
                    k in Bucket(old(tagIndex), t) && !(k == key && t in entry.tags - rest)
        invariant entries == old(entries) - {key}
        invariant timers == old(timers) - {entry.serial}
        invariant nextSerial == old(nextSerial)
        decreases rest
      {
        var tag :| tag in rest;
        ghost var prior := tagIndex;
        if tag in tagIndex {
          var keys := tagIndex[tag] - {key};
          tagIndex := if keys == {} then tagIndex - {tag} else tagIndex[tag := keys];
        }
        assert forall t :: Bucket(tagIndex, t) == if t == tag then Bucket(prior, t) - {key} else Bucket(prior, t);
        rest := rest - {tag};
      }
    }
  }
}
