/** Small value types and sequence functions that several components share. */
module Prelude {

  datatype Option<+T> = None | Some(value: T) {
    function GetOr(default: T): T {
      match this
      case Some(v) => v
      case None => default
    }

    // `a ?? b` for two optional operands.
    function OrElse(other: Option<T>): Option<T> {
      if Some? then this else other
    }
  }

  datatype Result<+T, +E> = Ok(value: T) | Err(error: E)

  function Get<K, V>(m: map<K, V>, k: K): Option<V> {
    if k in m then Some(m[k]) else None
  }

  // ---------------------------------------------------------------- sequences

  ghost predicate Distinct<T>(s: seq<T>) {
    forall i, j :: 0 <= i < j < |s| ==> s[i] != s[j]
  }

  function Elements<T>(s: seq<T>): (r: set<T>) {
    set x | x in s
  }

  function Last<T>(s: seq<T>): T
    requires s != []
  {
    s[|s| - 1]
  }

  function Front<T>(s: seq<T>): seq<T>
    requires s != []
  {
    s[..|s| - 1]
  }

  // The values of s that are neither in `seen` nor earlier in s, in order.
  function NewOnes<T(==)>(seen: set<T>, s: seq<T>): seq<T>
    decreases |s|
  {
    if s == [] then []
    else if s[0] in seen then NewOnes(seen, s[1..])
    else [s[0]] + NewOnes(seen + {s[0]}, s[1..])
  }

  // The values at the positions where they occur for the first time.
  function FirstOccurrences<T(==)>(s: seq<T>): seq<T> {
    NewOnes({}, s)
  }

  lemma {:induction false} NewOnesMeaning<T>(seen: set<T>, s: seq<T>)
    ensures Distinct(NewOnes(seen, s))
    ensures forall x :: x in NewOnes(seen, s) <==> x in s && x !in seen
    decreases |s|
  {
    if s != [] {
      NewOnesMeaning(if s[0] in seen then seen else seen + {s[0]}, s[1..]);
      assert s == [s[0]] + s[1..];
    }
  }

  lemma FirstOccurrencesMeaning<T>(s: seq<T>)
    ensures Distinct(FirstOccurrences(s))
    ensures forall x :: x in FirstOccurrences(s) <==> x in s
  {
    NewOnesMeaning({}, s);
  }

  // Of two values kept, the one kept first occurs before the other does.
  lemma {:induction false} NewOnesOrder<T>(seen: set<T>, s: seq<T>, i: nat, j: nat)
    requires i < j < |NewOnes(seen, s)|
    ensures exists p: nat :: p < |s| && s[p] == NewOnes(seen, s)[i] && NewOnes(seen, s)[j] !in s[..p + 1]
    decreases |s|
  {
    var r := NewOnes(seen, s);
    if s[0] in seen {
      NewOnesOrder(seen, s[1..], i, j);
      var p: nat :| p < |s[1..]| && s[1..][p] == r[i] && r[j] !in s[1..][..p + 1];
      NewOnesMeaning(seen, s);
      assert r[j] in r;
      assert s[..p + 2] == [s[0]] + s[1..][..p + 1];
      assert s[p + 1] == r[i];
    } else if i == 0 {
      NewOnesMeaning(seen, s);
      assert s[..1] == [s[0]];
      assert r[j] != r[0];
      assert s[0] == r[0];
    } else {
      NewOnesOrder(seen + {s[0]}, s[1..], i - 1, j - 1);
      var p: nat :| p < |s[1..]| && s[1..][p] == r[i] && r[j] !in s[1..][..p + 1];
      NewOnesMeaning(seen, s);
      assert r[j] != r[0] && s[..p + 2] == [s[0]] + s[1..][..p + 1];
      assert s[p + 1] == r[i];
    }
  }

  lemma FirstOccurrencesOrder<T>(s: seq<T>, i: nat, j: nat)
    requires i < j < |FirstOccurrences(s)|
    ensures exists p: nat :: p < |s| && s[p] == FirstOccurrences(s)[i] && FirstOccurrences(s)[j] !in s[..p + 1]
  {
    NewOnesOrder({}, s, i, j);
  }

  lemma {:induction false} NewOnesAppend<T>(seen: set<T>, a: seq<T>, b: seq<T>)
    ensures NewOnes(seen, a + b) == NewOnes(seen, a) + NewOnes(seen + Elements(a), b)
    decreases |a|
  {
    if a == [] {
      assert a + b == b && seen + Elements(a) == seen;
    } else {
      var x, rest := a[0], a[1..];
      assert (a + b)[0] == x && (a + b)[1..] == rest + b;
      assert a == [x] + rest;
      if x in seen {
        assert seen + Elements(a) == seen + Elements(rest);
        NewOnesAppend(seen, rest, b);
      } else {
        assert seen + Elements(a) == (seen + {x}) + Elements(rest);
        NewOnesAppend(seen + {x}, rest, b);
      }
    }
  }

  // The first value of b that is not in `seen`.
  function NextNew<T(==)>(seen: set<T>, b: seq<T>): Option<T> {
    if b == [] then None
    else if b[0] in seen then NextNew(seen, b[1..])
    else Some(b[0])
  }

  lemma {:induction false} NewOnesStart<T>(seen: set<T>, b: seq<T>)
    ensures NewOnes(seen, b) ==
            match NextNew(seen, b)
            case None => []
            case Some(y) => [y] + NewOnes(seen + {y}, b)
  {
    if b != [] && b[0] in seen {
      NewOnesStart(seen, b[1..]);
      assert forall y :: b[0] in seen + {y};
    }
  }

  // Dropping one occurrence of x goes unnoticed exactly when x is listed before it anyway, or is
  // the next new value after it.
  lemma DroppingUnnoticed<T>(a: seq<T>, x: T, b: seq<T>)
    ensures FirstOccurrences(a + [x] + b) == FirstOccurrences(a + b) <==>
            x in a || NextNew(Elements(a), b) == Some(x)
  {
    var seen, shorter, longer := Elements(a), NewOnes(Elements(a), b), NewOnes(Elements(a), [x] + b);
    assert a + [x] + b == a + ([x] + b);
    NewOnesAppend({}, a, [x] + b);
    NewOnesAppend({}, a, b);
    assert {} + seen == seen;
    SamePrefix(FirstOccurrences(a), longer, shorter);
    assert ([x] + b)[1..] == b;
    NewOnesStart(seen, b);
    assert x in a <==> x in seen;
    if x !in seen {
      assert longer == [x] + NewOnes(seen + {x}, b);
      if NextNew(seen, b).Some? {
        assert shorter[0] == NextNew(seen, b).value && longer[0] == x;
      }
    }
  }

  lemma SamePrefix<T>(p: seq<T>, a: seq<T>, b: seq<T>)
    ensures p + a == p + b <==> a == b
  {
    assert (p + a)[|p|..] == a && (p + b)[|p|..] == b;
  }

  // The deduplication loop that the profile stores, the key store and the policy engine share.
  method DedupeStrings<T(==)>(values: seq<T>) returns (result: seq<T>)
    ensures result == FirstOccurrences(values)
    ensures forall x :: x in result <==> x in values
  {
    var seen: set<T> := {};
    result := [];
    for i := 0 to |values|
      invariant seen == Elements(values[..i])
      invariant result == FirstOccurrences(values[..i])
    {
      assert values[..i + 1] == values[..i] + [values[i]];
      NewOnesAppend({}, values[..i], [values[i]]);
      assert {} + seen == seen;
      if values[i] !in seen {
        seen := seen + {values[i]};
        result := result + [values[i]];
      }
    }
    assert values[..|values|] == values;
    FirstOccurrencesMeaning(values);
  }

  function Filter<T>(p: T -> bool, s: seq<T>): seq<T> {
    if s == [] then []
    else if p(s[0]) then [s[0]] + Filter(p, s[1..])
    else Filter(p, s[1..])
  }
}
