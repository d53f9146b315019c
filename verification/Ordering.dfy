/** Sorted listings of sets of rows, as `ORDER BY` and the stores' sorts produce them. */
module Ordering {
  import opened Prelude

  ghost predicate StrictOrder<T(!new)>(less: (T, T) -> bool) {
    && (forall x :: !less(x, x))
    && (forall x, y, z :: less(x, y) && less(y, z) ==> less(x, z))
  }

  ghost predicate TotalOn<T(!new)>(less: (T, T) -> bool, rows: set<T>) {
    forall x, y :: x in rows && y in rows && x != y ==> less(x, y) || less(y, x)
  }

  ghost predicate Sorted<T>(less: (T, T) -> bool, s: seq<T>) {
    forall i, j :: 0 <= i < j < |s| ==> less(s[i], s[j])
  }

  function Insert<T>(less: (T, T) -> bool, x: T, s: seq<T>): seq<T> {
    if s == [] then [x]
    else if less(x, s[0]) then [x] + s
    else [s[0]] + Insert(less, x, s[1..])
  }

  lemma {:induction false} InsertSorted<T(!new)>(less: (T, T) -> bool, x: T, s: seq<T>)
    requires StrictOrder(less) && Sorted(less, s)
    requires x !in s && TotalOn(less, Elements(s) + {x})
    ensures Sorted(less, Insert(less, x, s))
    ensures Elements(Insert(less, x, s)) == Elements(s) + {x}
  {
    if s == [] {
    } else if less(x, s[0]) {
      assert Elements([x] + s) == Elements(s) + {x};
    } else {
      assert s == [s[0]] + s[1..];
      assert s[0] in Elements(s) && less(s[0], x);
      assert Elements(s[1..]) <= Elements(s);
      InsertSorted(less, x, s[1..]);
      SortedCons(less, s[0], Insert(less, x, s[1..]), s[1..], x);
    }
  }

  lemma SortedCons<T(!new)>(less: (T, T) -> bool, first: T, rest: seq<T>, tail: seq<T>, x: T)
    requires Sorted(less, rest) && Elements(rest) == Elements(tail) + {x} && less(first, x)
    requires forall y :: y in tail ==> less(first, y)
    ensures Sorted(less, [first] + rest) && Elements([first] + rest) == Elements([first] + tail) + {x}
  {
    forall j | 0 <= j < |rest| ensures less(first, rest[j]) {
      assert rest[j] in Elements(rest);
    }
    assert Elements([first] + rest) == {first} + Elements(rest);
    assert Elements([first] + tail) == {first} + Elements(tail);
  }

  // The rows in order.
  ghost function Listing<T(!new)>(less: (T, T) -> bool, rows: set<T>): (s: seq<T>)
    requires StrictOrder(less) && TotalOn(less, rows)
    ensures Sorted(less, s) && Elements(s) == rows
  {
    if rows == {} then []
    else
      var x :| x in rows;
      var rest := Listing(less, rows - {x});
      assert x !in rest by { assert forall y :: y in rest ==> y in Elements(rest); }
      InsertSorted(less, x, rest);
      Insert(less, x, rest)
  }

  lemma ElementsEmpty<T>(s: seq<T>)
    ensures Elements(s) == {} <==> s == []
  {
    if s != [] {
      assert s[0] in Elements(s);
    }
  }

  lemma FirstIsLeast<T(!new)>(less: (T, T) -> bool, s: seq<T>, x: T)
    requires Sorted(less, s) && x in s
    ensures s != [] && (x == s[0] || less(s[0], x))
  {
  }

  lemma TailElements<T(!new)>(less: (T, T) -> bool, s: seq<T>)
    requires StrictOrder(less) && Sorted(less, s) && s != []
    ensures Elements(s[1..]) == Elements(s) - {s[0]}
  {
    assert s == [s[0]] + s[1..];
  }

  // A set of rows has one sorted listing only.
  lemma {:induction false} ListingUnique<T(!new)>(less: (T, T) -> bool, s: seq<T>, t: seq<T>)
    requires StrictOrder(less)
    requires Sorted(less, s) && Sorted(less, t) && Elements(s) == Elements(t)
    ensures s == t
  {
    ElementsEmpty(s);
    ElementsEmpty(t);
    if s != [] {
      assert s[0] in Elements(t) && t[0] in Elements(s);
      FirstIsLeast(less, t, s[0]);
      FirstIsLeast(less, s, t[0]);
      TailElements(less, s);
      TailElements(less, t);
      ListingUnique(less, s[1..], t[1..]);
      assert s == [s[0]] + s[1..] && t == [t[0]] + t[1..];
    }
  }

  lemma RemoveAt<T(!new)>(less: (T, T) -> bool, s: seq<T>, i: nat)
    requires StrictOrder(less) && Sorted(less, s) && i < |s|
    ensures Sorted(less, s[..i] + s[i + 1..])
    ensures Elements(s[..i] + s[i + 1..]) == Elements(s) - {s[i]}
  {
    assert s == s[..i] + [s[i]] + s[i + 1..];
    assert s[i] !in s[..i] && s[i] !in s[i + 1..];
  }

  // A query's rows, sorted one at a time.
  method SortRows<T(==,!new)>(less: (T, T) -> bool, rows: set<T>) returns (s: seq<T>)
    requires StrictOrder(less) && TotalOn(less, rows)
    ensures s == Listing(less, rows)
  {
    s := [];
    var rest := rows;
    while rest != {}
      invariant rest <= rows && Sorted(less, s) && Elements(s) == rows - rest
      decreases rest
    {
      var x :| x in rest;
      assert x !in s by { assert forall y :: y in s ==> y in Elements(s); }
      InsertSorted(less, x, s);
      s := Insert(less, x, s);
      rest := rest - {x};
    }
    ListingUnique(less, s, Listing(less, rows));
  }

  // ------------------------------------------------------------------- strings

  function LexLess<T(==)>(lt: (T, T) -> bool, a: seq<T>, b: seq<T>): bool {
    if b == [] then false
    else if a == [] then true
    else if a[0] == b[0] then LexLess(lt, a[1..], b[1..])
    else lt(a[0], b[0])
  }

  lemma {:induction false} LexIrreflexive<T(!new)>(lt: (T, T) -> bool, a: seq<T>)
    ensures !LexLess(lt, a, a)
  {
    if a != [] {
      LexIrreflexive(lt, a[1..]);
    }
  }

  lemma {:induction false} LexTransitive<T(!new)>(lt: (T, T) -> bool, a: seq<T>, b: seq<T>, c: seq<T>)
    requires StrictOrder(lt)
    requires LexLess(lt, a, b) && LexLess(lt, b, c)
    ensures LexLess(lt, a, c)
  {
    if a != [] && a[0] == b[0] == c[0] {
      LexTransitive(lt, a[1..], b[1..], c[1..]);
    }
  }

  lemma {:induction false} LexTotal<T(!new)>(lt: (T, T) -> bool, a: seq<T>, b: seq<T>)
    requires forall x, y :: x != y ==> lt(x, y) || lt(y, x)
    requires a != b
    ensures LexLess(lt, a, b) || LexLess(lt, b, a)
  {
    if a != [] && b != [] && a[0] == b[0] {
      assert a == [a[0]] + a[1..] && b == [b[0]] + b[1..];
      LexTotal(lt, a[1..], b[1..]);
    }
  }

  function CharLess(a: char, b: char): bool { a < b }

  function StringLess(a: string, b: string): bool { LexLess(CharLess, a, b) }

  lemma StringOrder()
    ensures StrictOrder(StringLess)
    ensures forall a, b :: a != b ==> StringLess(a, b) || StringLess(b, a)
  {
    assert StrictOrder(CharLess);
    forall a ensures !StringLess(a, a) { LexIrreflexive(CharLess, a); }
    forall a, b, c | StringLess(a, b) && StringLess(b, c) ensures StringLess(a, c) {
      LexTransitive(CharLess, a, b, c);
    }
    forall a, b | a != b ensures StringLess(a, b) || StringLess(b, a) { LexTotal(CharLess, a, b); }
  }

  // A string comes before another when it is a proper beginning of it, or has the smaller character
  // where the two first differ.
  lemma {:induction false} StringLessMeaning(a: string, b: string)
    ensures StringLess(a, b) <==>
            exists k: nat :: k <= |a| && k < |b| && a[..k] == b[..k] && (k == |a| || (a[k] as int) < (b[k] as int))
  {
    if a != [] && b != [] && a[0] == b[0] {
      StringLessMeaning(a[1..], b[1..]);
      if StringLess(a[1..], b[1..]) {
        var k: nat :| && k <= |a[1..]| && k < |b[1..]| && a[1..][..k] == b[1..][..k]
                      && (k == |a[1..]| || (a[1..][k] as int) < (b[1..][k] as int));
        assert a[..k + 1] == [a[0]] + a[1..][..k] && b[..k + 1] == [b[0]] + b[1..][..k];
        FirstDifference(a, b, k + 1);
      }
      if k: nat :| k <= |a| && k < |b| && a[..k] == b[..k] && (k == |a| || (a[k] as int) < (b[k] as int)) {
        assert k > 0;
        assert a[1..][..k - 1] == a[..k][1..] && b[1..][..k - 1] == b[..k][1..];
        FirstDifference(a[1..], b[1..], k - 1);
      }
    } else if StringLess(a, b) {
      assert a[..0] == b[..0];
      FirstDifference(a, b, 0);
    }
  }

  lemma FirstDifference(a: string, b: string, k: nat)
    requires k <= |a| && k < |b| && a[..k] == b[..k] && (k == |a| || (a[k] as int) < (b[k] as int))
    ensures exists n: nat :: n <= |a| && n < |b| && a[..n] == b[..n] && (n == |a| || (a[n] as int) < (b[n] as int))
  {
  }
}
