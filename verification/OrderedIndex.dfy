/**
 Secondary indexes whose buckets keep the order in which their members were added. An index is
 exact when every bucket lists, in order, the ids that the primary table files under its key.
 */
module OrderedIndex {
  import opened Prelude

  type Index<K, V> = map<K, seq<V>>

  function Bucket<K, V>(index: Index<K, V>, key: K): seq<V> {
    if key in index then index[key] else []
  }

  function Dropping<V(==)>(s: seq<V>, v: V): seq<V> {
    if s == [] then []
    else if s[0] == v then Dropping(s[1..], v)
    else [s[0]] + Dropping(s[1..], v)
  }

  // `addToIndex`: a value that is there already keeps its place.
  function Added<K, V(==)>(index: Index<K, V>, key: K, v: V): Index<K, V> {
    if v in Bucket(index, key) then index else index[key := Bucket(index, key) + [v]]
  }

  // `removeFromIndex`: no bucket stays behind empty.
  function Removed<K, V(==)>(index: Index<K, V>, key: K, v: V): Index<K, V> {
    if key !in index then index
    else
      var rest := Dropping(index[key], v);
      if rest == [] then index - {key} else index[key := rest]
  }

  // The ids filed under the key, in order.
  function Under<K(==), V(==)>(order: seq<V>, owner: map<V, K>, key: K): seq<V> {
    if order == [] then []
    else
      var rest := Under(order[1..], owner, key);
      if order[0] in owner && owner[order[0]] == key then [order[0]] + rest else rest
  }

  ghost predicate Exact<K(!new), V(!new)>(index: Index<K, V>, order: seq<V>, owner: map<V, K>) {
    && Distinct(order)
    && (forall v :: v in order <==> v in owner)
    && (forall k :: Bucket(index, k) == Under(order, owner, k))
    && (forall k :: k in index ==> index[k] != [])
  }

  lemma {:induction false} UnderMeaning<K, V>(order: seq<V>, owner: map<V, K>, key: K)
    ensures forall v :: v in Under(order, owner, key) <==> v in order && v in owner && owner[v] == key
  {
    if order != [] {
      UnderMeaning(order[1..], owner, key);
      assert order == [order[0]] + order[1..];
    }
  }

  lemma {:induction false} DroppingMeaning<V>(s: seq<V>, v: V)
    requires Distinct(s)
    ensures Distinct(Dropping(s, v)) && forall u :: u in Dropping(s, v) <==> u in s && u != v
  {
    if s != [] {
      DroppingMeaning(s[1..], v);
      assert s == [s[0]] + s[1..];
      assert s[0] !in Dropping(s[1..], v);
    }
  }

  lemma {:induction false} DroppingElements<V>(s: seq<V>, v: V)
    ensures forall u :: u in Dropping(s, v) <==> u in s && u != v
  {
    if s != [] {
      DroppingElements(s[1..], v);
      assert s == [s[0]] + s[1..];
    }
  }

  lemma {:induction false} DroppingAbsent<V>(s: seq<V>, v: V)
    requires v !in s
    ensures Dropping(s, v) == s
  {
    if s != [] {
      assert s == [s[0]] + s[1..];
      DroppingAbsent(s[1..], v);
    }
  }

  lemma {:induction false} UnderAppended<K, V>(order: seq<V>, owner: map<V, K>, v: V, k: K, key: K)
    requires v !in order
    ensures Under(order + [v], owner[v := k], key) == Under(order, owner, key) + if key == k then [v] else []
  {
    if order == [] {
      assert ([v])[1..] == [];
    } else {
      assert (order + [v])[1..] == order[1..] + [v];
      UnderAppended(order[1..], owner, v, k, key);
    }
  }

  lemma {:induction false} UnderDropped<K, V>(order: seq<V>, owner: map<V, K>, v: V, key: K)
    ensures Under(Dropping(order, v), owner - {v}, key) == Dropping(Under(order, owner, key), v)
  {
    if order != [] {
      UnderDropped(order[1..], owner, v, key);
      var rest := Under(order[1..], owner, key);
      assert ([order[0]] + rest)[1..] == rest;
      assert ([order[0]] + Dropping(order[1..], v))[1..] == Dropping(order[1..], v);
    }
  }

  // Filing a new id keeps the index exact.
  lemma AddedExact<K(!new), V(!new)>(index: Index<K, V>, order: seq<V>, owner: map<V, K>, k: K, v: V)
    requires Exact(index, order, owner) && v !in owner
    ensures Exact(Added(index, k, v), order + [v], owner[v := k])
  {
    UnderMeaning(order, owner, k);
    forall key ensures Bucket(Added(index, k, v), key) == Under(order + [v], owner[v := k], key) {
      UnderAppended(order, owner, v, k, key);
    }
  }

  // So does taking one out.
  lemma RemovedExact<K(!new), V(!new)>(index: Index<K, V>, order: seq<V>, owner: map<V, K>, k: K, v: V)
    requires Exact(index, order, owner) && v in owner && owner[v] == k
    ensures Exact(Removed(index, k, v), Dropping(order, v), owner - {v})
  {
    DroppingMeaning(order, v);
    UnderMeaning(order, owner, k);
    forall key ensures Bucket(Removed(index, k, v), key) == Under(Dropping(order, v), owner - {v}, key) {
      UnderDropped(order, owner, v, key);
      if key != k {
        UnderMeaning(order, owner, key);
        DroppingAbsent(Under(order, owner, key), v);
      }
    }
  }

  // Out of the old bucket, if there is one, to the end of the new one.
  function Refiled<K, V(==)>(index: Index<K, V>, was: Option<K>, key: K, v: V): Index<K, V> {
    Added(if was.Some? then Removed(index, was.value, v) else index, key, v)
  }

  lemma RefiledExact<K(!new), V(!new)>(index: Index<K, V>, order: seq<V>, owner: map<V, K>, k: K, v: V)
    requires Exact(index, order, owner)
    ensures Exact(Refiled(index, Get(owner, v), k, v), Dropping(order, v) + [v], owner[v := k])
  {
    if v in owner {
      RemovedExact(index, order, owner, owner[v], v);
      AddedExact(Removed(index, owner[v], v), Dropping(order, v), owner - {v}, k, v);
      assert (owner - {v})[v := k] == owner[v := k];
    } else {
      DroppingAbsent(order, v);
      AddedExact(index, order, owner, k, v);
    }
  }

  // The rows of a bucket are all the rows under its key.
  lemma BucketRows<K(!new), V(!new)>(index: Index<K, V>, order: seq<V>, owner: map<V, K>, key: K)
    requires Exact(index, order, owner)
    ensures forall v :: v in Bucket(index, key) <==> v in owner && owner[v] == key
  {
    UnderMeaning(order, owner, key);
  }

  // The rows of the ids that have one.
  function Rowed<V, R>(table: map<V, R>, ids: seq<V>): seq<R> {
    if ids == [] then []
    else
      var rest := Rowed(table, ids[1..]);
      if ids[0] in table then [table[ids[0]]] + rest else rest
  }

  lemma {:induction false} RowedMeaning<V, R>(table: map<V, R>, ids: seq<V>, row: R)
    ensures row in Rowed(table, ids) <==> exists id :: id in ids && id in table && table[id] == row
  {
    if ids != [] {
      RowedMeaning(table, ids[1..], row);
      assert ids == [ids[0]] + ids[1..];
      if row in Rowed(table, ids[1..]) {
        var id :| id in ids[1..] && id in table && table[id] == row;
        assert id in ids;
      }
    }
  }

  // In the order of the ids.
  lemma {:induction false} RowedOrder<V, R>(table: map<V, R>, a: seq<V>, b: seq<V>)
    ensures Rowed(table, a + b) == Rowed(table, a) + Rowed(table, b)
    ensures |a| == 1 ==> Rowed(table, a) == if a[0] in table then [table[a[0]]] else []
  {
    if a == [] {
      assert a + b == b;
    } else {
      assert (a + b)[0] == a[0] && (a + b)[1..] == a[1..] + b;
      RowedOrder(table, a[1..], b);
    }
  }
}
