/**
 The cache as a timed map: what `get` answers is a function of the history of calls alone. The
 history also holds what the cache does behind its callers' back (timer firings, evictions on
 read), and the theorem says that these never show as long as the clock does not run backwards.
 */
module TimedMap {
  import opened Prelude
  import opened MemoryCache

  datatype Op<K, V, T> =
    | SetOp(key: K, value: V, ttlSeconds: Option<int>, tags: set<T>)
    | GetOp(key: K)
    | DeleteOp(key: K)
    | PurgeOp(tag: T)
    | ClearOp
    | FireOp(key: K, serial: nat)  // a timer that captured the entry `serial` of `key`

  datatype Event<K, V, T> = Event(op: Op<K, V, T>, at: int)

  type History<K, V, T> = seq<Event<K, V, T>>

  // One call, on the entries; `serial` numbers the entry that a `set` makes.
  function Apply<K, V, T>(entries: Entries<K, V, T>, e: Event<K, V, T>, serial: nat): Entries<K, V, T> {
    match e.op
    case SetOp(k, v, ttl, tags) => entries[k := Entry(v, Expiry(ttl, e.at), tags, serial)]
    case GetOp(k) => if k in entries && Expired(entries[k], e.at) then Without(entries, k) else entries
    case DeleteOp(k) => Without(entries, k)
    case PurgeOp(t) => WithoutTags(entries, {t})
    case ClearOp => map[]
    case FireOp(k, n) => AfterExpiration(entries, k, n, e.at)
  }

  function Run<K, V, T>(h: History<K, V, T>): Entries<K, V, T> {
    if h == [] then map[] else Apply(Run(Front(h)), Last(h), |h| - 1)
  }

  // The class does exactly this on its entries, whatever the numbering.
  method Perform<K(==,!new), V, T(==,!new)>(cache: MemoryCache<K, V, T>, e: Event<K, V, T>) returns (r: Option<V>)
    requires cache.Valid()
    requires e.op.FireOp? ==> e.op.serial in cache.timers && cache.timers[e.op.serial] == e.op.key
    modifies cache
    ensures cache.Valid()
    ensures cache.entries == Apply(old(cache.entries), e, old(cache.nextSerial))
    ensures e.op.GetOp? ==> r == Lookup(old(cache.entries), e.op.key, e.at)
  {
    r := None;
    match e.op
    case SetOp(k, v, ttl, tags) => cache.Set(k, v, ttl, tags, e.at);
    case GetOp(k) => r := cache.Get(k, e.at);
    case DeleteOp(k) => cache.Delete(k);
    case PurgeOp(t) => cache.PurgeByTag(t);
    case ClearOp => cache.Clear();
    case FireOp(_, n) => cache.FireTimer(n, e.at);
  }

  // ------------------------------------------------------------ the specification

  ghost predicate ClockNondecreasing<K, V, T>(h: History<K, V, T>, now: int) {
    && (forall i, j :: 0 <= i < j < |h| ==> h[i].at <= h[j].at)
    && (forall i :: 0 <= i < |h| ==> h[i].at <= now)
  }

  // A caller's operation that ends the life of an entry of `key` carrying `tags`.
  ghost predicate Ends<K, V, T>(op: Op<K, V, T>, key: K, tags: set<T>) {
    match op
    case SetOp(k, _, _, _) => k == key
    case DeleteOp(k) => k == key
    case PurgeOp(t) => t in tags
    case ClearOp => true
    case GetOp(_) => false
    case FireOp(_, _) => false
  }

  // Event i set `key`, and no caller has ended that entry since.
  ghost predicate Stands<K, V, T>(h: History<K, V, T>, key: K, i: nat) {
    && i < |h|
    && h[i].op.SetOp?
    && h[i].op.key == key
    && forall j :: i < j < |h| ==> !Ends(h[j].op, key, h[i].op.tags)
  }

  function EntryOf<K, V, T>(h: History<K, V, T>, i: nat): Entry<V, T>
    requires i < |h| && h[i].op.SetOp?
  {
    Entry(h[i].op.value, Expiry(h[i].op.ttlSeconds, h[i].at), h[i].op.tags, i)
  }

  // ------------------------------------------------------------ the theorem

  // No read of the key, and no timer of the entry, has come at a time when the entry of event i
  // had expired.
  ghost predicate NeverSeenExpired<K, V, T>(h: History<K, V, T>, key: K, i: nat)
    requires i < |h| && h[i].op.SetOp?
  {
    forall j :: i < j < |h| && Sees(h[j].op, key, i) ==> !Expired(EntryOf(h, i), h[j].at)
  }

  predicate Sees<K(==), V, T>(op: Op<K, V, T>, key: K, serial: nat) {
    (op.GetOp? && op.key == key) || (op.FireOp? && op.key == key && op.serial == serial)
  }

  // Event i set `key`, no caller has ended that entry since, and nothing has seen it expired.
  ghost predicate Remains<K, V, T>(h: History<K, V, T>, key: K, i: nat) {
    Stands(h, key, i) && NeverSeenExpired(h, key, i)
  }

  // What is stored remains, and what remains is stored.
  ghost predicate Explained<K, V, T>(h: History<K, V, T>, key: K) {
    && (key in Run(h) ==>
          var i := Run(h)[key].serial;
          Remains(h, key, i) && Run(h)[key] == EntryOf(h, i))
    && (forall i: nat :: Remains(h, key, i) ==> key in Run(h) && Run(h)[key] == EntryOf(h, i))
  }

  // One more event leaves an earlier entry alone unless it ends it, or sees it expired.
  lemma RemainsStep<K, V, T>(h: History<K, V, T>, key: K, i: nat)
    requires h != [] && i < |h| - 1
    ensures Remains(h, key, i) <==>
            && Remains(Front(h), key, i)
            && !Ends(Last(h).op, key, h[i].op.tags)
            && !(Sees(Last(h).op, key, i) && Expired(EntryOf(h, i), Last(h).at))
    ensures h[i].op.SetOp? ==> EntryOf(Front(h), i) == EntryOf(h, i)
  {
    assert forall j :: 0 <= j < |h| - 1 ==> Front(h)[j] == h[j];
  }

  // Whatever the clock does.
  lemma {:induction false} EveryEntryExplained<K, V, T>(h: History<K, V, T>, key: K)
    ensures Explained(h, key)
  {
    if h != [] {
      var front, last := Front(h), Last(h);
      EveryEntryExplained(front, key);
      if key in Run(h) && !(last.op.SetOp? && last.op.key == key) {
        assert Run(h)[key] == Run(front)[key];
        RemainsStep(h, key, Run(front)[key].serial);
      }
      forall i: nat | Remains(h, key, i) ensures key in Run(h) && Run(h)[key] == EntryOf(h, i) {
        if i < |h| - 1 {
          RemainsStep(h, key, i);
        }
      }
    }
  }

  // `get` answers the value that remains and has not expired, and nothing otherwise, on any clock.
  lemma GetExact<K, V, T>(h: History<K, V, T>, now: int, key: K, v: V)
    ensures Lookup(Run(h), key, now) == Some(v) <==>
            exists i: nat :: Remains(h, key, i) && h[i].op.value == v && !Expired(EntryOf(h, i), now)
  {
    EveryEntryExplained(h, key);
    if Lookup(Run(h), key, now) == Some(v) {
      assert Remains(h, key, Run(h)[key].serial);
    }
  }

  // A value that stands and has not expired is lost exactly when the clock has run backwards across
  // its expiry: a read or its timer has seen it expired at a later time than now.
  lemma LostExactly<K, V, T>(h: History<K, V, T>, now: int, key: K, i: nat)
    requires Stands(h, key, i) && !Expired(EntryOf(h, i), now)
    ensures Lookup(Run(h), key, now) ==
            if exists j :: i < j < |h| && Sees(h[j].op, key, i) && Expired(EntryOf(h, i), h[j].at) then None
            else Some(h[i].op.value)
    ensures forall j :: i < j < |h| && Expired(EntryOf(h, i), h[j].at) ==> h[j].at > now
  {
    EveryEntryExplained(h, key);
    if key in Run(h) {
      OneStands(h, key, i, Run(h)[key].serial);
    }
  }

  lemma OneStands<K, V, T>(h: History<K, V, T>, key: K, i: nat, j: nat)
    requires Stands(h, key, i) && Stands(h, key, j)
    ensures i == j
  {
  }

  // With a clock that never runs backwards, `get` answers the value that stands and has not expired.
  lemma GetAnswersTheTimedMap<K, V, T>(h: History<K, V, T>, now: int, key: K, v: V)
    requires ClockNondecreasing(h, now)
    ensures Lookup(Run(h), key, now) == Some(v) <==>
            exists i: nat :: Stands(h, key, i) && h[i].op.value == v && !Expired(EntryOf(h, i), now)
  {
    GetExact(h, now, key, v);
    forall i: nat | Stands(h, key, i) && !Expired(EntryOf(h, i), now) ensures Remains(h, key, i) {
    }
  }

  // Such a loss: an entry evicted late would stand again on an earlier clock.
  lemma BackwardClockShows()
    ensures var h: History<int, int, int> := [Event(SetOp(1, 5, Some(1), {}), 0), Event(GetOp(1), 2000)];
            && Stands(h, 1, 0) && !Expired(EntryOf(h, 0), 500)
            && Lookup(Run(h), 1, 500) == None
  {
    var set0: Event<int, int, int> := Event(SetOp(1, 5, Some(1), {}), 0);
    var h: History<int, int, int> := [set0, Event(GetOp(1), 2000)];
    assert Front(h) == [set0];
    assert Run([set0]) == map[1 := Entry(5, Some(1000), {}, 0)] by {
      assert Front([set0]) == [];
    }
    assert Run(h) == map[];
  }

  // A value set with a time to live of s seconds is answered for exactly the s seconds after, on
  // a clock of milliseconds; without one, for ever.
  lemma LifeOfAnEntry<K, V, T>(h: History<K, V, T>, key: K, v: V, ttlSeconds: Option<int>, tags: set<T>, at: int,
                               now: int)
    ensures Lookup(Run(h + [Event(SetOp(key, v, ttlSeconds, tags), at)]), key, now) ==
            if ttlSeconds.Some? && at + 1000 * ttlSeconds.value <= now then None else Some(v)
  {
    var e := Event(SetOp(key, v, ttlSeconds, tags), at);
    assert Front(h + [e]) == h;
  }
}
