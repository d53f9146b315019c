/**
 The order of the properties of a normalised object: the engine's own, array indexes first and by
 their numbers, then all other names as they were sorted.
 */
module PropertyOrder {
  import opened Prelude
  import opened Ordering
  import opened CanonicalJson
  import opened JsonText

  ghost predicate Digits(t: Text) {
    t != [] && forall i :: 0 <= i < |t| ==> IsDigit(t[i])
  }

  lemma {:induction false} DecimalPositive(t: Text)
    requires Digits(t)
    ensures Decimal(0, t) >= 0 && (t[0] != 48 ==> Decimal(0, t) > 0)
    ensures |t| > 1 ==> Decimal(0, t) == Decimal(0, Front(t)) * 10 + (Last(t) - 48)
  {
    if |t| > 1 {
      DecimalPositive(Front(t));
      assert t == Front(t) + [Last(t)];
      DecimalAppend(0, Front(t), [Last(t)]);
      assert [Last(t)][1..] == [];
    } else {
      assert t[1..] == [];
    }
  }

  // Digits without a leading zero are what their number prints as.
  lemma {:induction false} DigitsOfNumber(t: Text)
    requires Digits(t) && (t[0] == 48 ==> |t| == 1)
    ensures Decimal(0, t) >= 0 && PrintNat(Decimal(0, t)) == t
  {
    DecimalPositive(t);
    if |t| == 1 {
      assert t[1..] == [] && t == [t[0]];
    } else {
      DecimalPositive(Front(t));
      DigitsOfNumber(Front(t));
      assert t == Front(t) + [Last(t)];
    }
  }

  function Tens(k: nat): nat {
    if k == 0 then 1 else 10 * Tens(k - 1)
  }

  lemma {:induction false} FewDigits(n: nat, k: nat)
    requires k > 0 && n < Tens(k)
    ensures |PrintNat(n)| <= k
  {
    if n >= 10 {
      FewDigits(n / 10, k - 1);
    }
  }

  lemma {:induction false} NoLeadingZero(n: nat)
    requires n > 0
    ensures PrintNat(n) != [] && PrintNat(n)[0] != 48
  {
    if n >= 10 {
      NoLeadingZero(n / 10);
    }
  }

  // The index-like names are the decimal texts of the numbers below 2^32 - 1.
  lemma IndexMeaning(f: Field)
    ensures IsIndex(f) <==> exists n: nat :: n < 4294967295 && f.key == PrintNat(n)
  {
    if IsIndex(f) {
      DigitsOfNumber(f.key);
      var n: nat := Decimal(0, f.key);
      assert n < 4294967295 && f.key == PrintNat(n);
    }
    if n: nat :| n < 4294967295 && f.key == PrintNat(n) {
      PrintNatMeaning(n);
      assert Tens(10) == 10000000000;
      FewDigits(n, 10);
      if n > 0 {
        NoLeadingZero(n);
      }
    }
  }

  lemma IndexOrder(fields: seq<Field>)
    requires DistinctKeys(fields) && forall f :: f in fields ==> IsIndex(f)
    ensures Sorted(IndexLess, SortFields(IndexLess, fields))
  {
    forall x, y | x in Elements(fields) && y in Elements(fields) && x != y ensures IndexLess(x, y) || IndexLess(y, x) {
      DigitsOfNumber(x.key);
      DigitsOfNumber(y.key);
      var i :| 0 <= i < |fields| && fields[i] == x;
      var j :| 0 <= j < |fields| && fields[j] == y;
      assert i < j || j < i;
    }
    SortFieldsSorted(IndexLess, fields);
  }

  lemma {:induction false} FilterSorted(less: (Field, Field) -> bool, p: Field -> bool, s: seq<Field>)
    requires Sorted(less, s)
    ensures Sorted(less, Filter(p, s))
  {
    if s != [] {
      var tail := s[1..];
      var rest := Filter(p, tail);
      FilterSorted(less, p, tail);
      FilterElements(p, tail);
      forall i | 0 <= i < |rest| ensures less(s[0], rest[i]) {
        assert rest[i] in rest;
        var k :| 0 <= k < |tail| && tail[k] == rest[i];
        assert tail[k] == s[k + 1];
      }
    }
  }

  // Whether the property `a` may come before the property `b`.
  predicate MayPrecede(a: Field, b: Field) {
    if IsIndex(b) then IsIndex(a) && Decimal(0, a.key) < Decimal(0, b.key)
    else IsIndex(a) || LexLess(UnitLess, a.key, b.key)
  }

  lemma EntriesOrder(entries: seq<Field>)
    requires DistinctKeys(entries) && Sorted(FieldLess, entries)
    ensures Sorted((a, b) => MayPrecede(a, b), FromEntries(entries))
  {
    var indexes, names := Filter(f => IsIndex(f), entries), Filter(f => !IsIndex(f), entries);
    FilterElements(f => IsIndex(f), entries);
    FilterElements(f => !IsIndex(f), entries);
    FilterDistinct(f => IsIndex(f), entries);
    IndexOrder(indexes);
    SortFieldsElements(IndexLess, indexes);
    FilterSorted(FieldLess, f => !IsIndex(f), entries);
    var sorted := SortFields(IndexLess, indexes);
    assert forall f :: f in sorted <==> f in Elements(sorted);
    assert forall f :: f in indexes <==> f in Elements(indexes);
    forall k | 0 <= k < |sorted| ensures IsIndex(sorted[k]) { assert sorted[k] in sorted; }
    forall k | 0 <= k < |names| ensures !IsIndex(names[k]) { assert names[k] in names; }
  }

  // Of two properties of a normalised object, the first has the lower number if the second is an
  // index, and the lower name, unit by unit, if neither is; and no other name comes before an index.
  lemma NormalOrder(fields: seq<Field>, i: nat, j: nat)
    requires DistinctKeys(fields) && i < j < |Normalize(Obj(fields)).fields|
    ensures var r := Normalize(Obj(fields)).fields;
            && (IsIndex(r[j]) ==> IsIndex(r[i]) && Decimal(0, r[i].key) < Decimal(0, r[j].key))
            && (!IsIndex(r[i]) ==> LexLess(UnitLess, r[i].key, r[j].key))
  {
    NormalizeFieldsMeaning(fields);
    SortedByKey(NormalizeFields(fields));
    SortFieldsElements(FieldLess, NormalizeFields(fields));
    EntriesOrder(SortFields(FieldLess, NormalizeFields(fields)));
    assert MayPrecede(Normalize(Obj(fields)).fields[i], Normalize(Obj(fields)).fields[j]);
  }
}
