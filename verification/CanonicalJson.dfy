/**
 The canonical form behind the spec hash: `normalize`, and its JSON text as printed by
 `JSON.stringify`. Strings are sequences of UTF-16 code units, numbers are integers.
 */
module CanonicalJson {
  import opened Prelude
  import opened Ordering

  type Unit = c: int | 0 <= c < 0x10000

  type Text = seq<Unit>

  // A JSON-like value, with `undefined`; records list their own fields in insertion order.
  datatype Value =
    | Undefined
    | Null
    | Bool(b: bool)
    | Num(n: int)
    | Str(s: Text)
    | Arr(items: seq<Value>)
    | Obj(fields: seq<Field>)

  datatype Field = Field(key: Text, value: Value)

  ghost predicate DistinctKeys(fields: seq<Field>) {
    forall i, j :: 0 <= i < j < |fields| ==> fields[i].key != fields[j].key
  }

  // A record has one field per key.
  ghost predicate WellFormed(v: Value) {
    match v
    case Arr(items) => forall i :: 0 <= i < |items| ==> WellFormed(items[i])
    case Obj(fields) =>
      DistinctKeys(fields) && forall i :: 0 <= i < |fields| ==> WellFormed(fields[i].value)
    case _ => true
  }

  // ------------------------------------------------------------------- normalize

  function UnitLess(a: Unit, b: Unit): bool { a < b }

  function FieldLess(a: Field, b: Field): bool { LexLess(UnitLess, a.key, b.key) }

  function SortFields(less: (Field, Field) -> bool, fields: seq<Field>): seq<Field> {
    if fields == [] then [] else Insert(less, fields[0], SortFields(less, fields[1..]))
  }

  predicate IsDigit(c: Unit) { 48 <= c <= 57 }

  function Decimal(acc: int, digits: Text): int
    decreases |digits|
  {
    if digits == [] then acc
    else
      var digit: int := digits[0];
      Decimal(acc * 10 + (digit - 48), digits[1..])
  }

  // Keys such as "0" or "42", which an engine lists first and in numeric order.
  predicate IsIndex(f: Field) {
    && 0 < |f.key| <= 10
    && (forall i :: 0 <= i < |f.key| ==> IsDigit(f.key[i]))
    && (f.key[0] == 48 ==> |f.key| == 1)
    && Decimal(0, f.key) < 0xFFFF_FFFF
  }

  function IndexLess(a: Field, b: Field): bool { Decimal(0, a.key) < Decimal(0, b.key) }

  // `Object.fromEntries`, in the order in which the fields of the new object are listed.
  function FromEntries(entries: seq<Field>): seq<Field> {
    SortFields(IndexLess, Filter(f => IsIndex(f), entries)) + Filter(f => !IsIndex(f), entries)
  }

  function Normalize(v: Value): Value {
    match v
    case Undefined => Null
    case Arr(items) => Arr(NormalizeItems(items))
    case Obj(fields) => Obj(FromEntries(SortFields(FieldLess, NormalizeFields(fields))))
    case _ => v
  }

  function NormalizeItems(items: seq<Value>): (r: seq<Value>)
    ensures |r| == |items|
    ensures forall i :: 0 <= i < |r| ==> r[i] == Normalize(items[i])
  {
    if items == [] then [] else [Normalize(items[0])] + NormalizeItems(items[1..])
  }

  // The defined fields, with their values normalised.
  function NormalizeFields(fields: seq<Field>): seq<Field> {
    if fields == [] then []
    else if fields[0].value == Undefined then NormalizeFields(fields[1..])
    else [Field(fields[0].key, Normalize(fields[0].value))] + NormalizeFields(fields[1..])
  }

  // -------------------------------------------------------- equality up to form

  ghost predicate Defines(fields: seq<Field>, key: Text) {
    exists i :: 0 <= i < |fields| && fields[i].key == key && fields[i].value != Undefined
  }

  // Equal up to field order, dropped undefined fields, and undefined for null elsewhere.
  ghost predicate SameForm(a: Value, b: Value)
    decreases a
  {
    match a
    case Undefined => b == Undefined || b == Null
    case Null => b == Undefined || b == Null
    case Arr(xs) =>
      && b.Arr?
      && |xs| == |b.items|
      && forall i :: 0 <= i < |xs| ==> SameForm(xs[i], b.items[i])
    case Obj(fs) =>
      && b.Obj?
      && (forall key :: Defines(fs, key) <==> Defines(b.fields, key))
      && (forall i, j ::
            (&& 0 <= i < |fs| && 0 <= j < |b.fields| && fs[i].key == b.fields[j].key
             && fs[i].value != Undefined && b.fields[j].value != Undefined)
            ==> SameForm(fs[i].value, b.fields[j].value))
    case _ => a == b
  }

  // ------------------------------------------------------------- sorts and sets

  lemma {:induction false} SortFieldsElements(less: (Field, Field) -> bool, fields: seq<Field>)
    ensures Elements(SortFields(less, fields)) == Elements(fields)
    ensures DistinctKeys(fields) ==> DistinctKeys(SortFields(less, fields))
  {
    if fields != [] {
      var rest := SortFields(less, fields[1..]);
      SortFieldsElements(less, fields[1..]);
      InsertElements(less, fields[0], rest);
      assert fields == [fields[0]] + fields[1..];
      assert forall f :: f in rest <==> f in Elements(rest);
      if DistinctKeys(fields) {
        forall f | f in rest ensures f.key != fields[0].key {
          assert f in Elements(fields[1..]);
        }
        InsertDistinct(less, fields[0], rest);
      }
    }
  }

  lemma {:induction false} InsertElements<T>(less: (T, T) -> bool, x: T, s: seq<T>)
    ensures forall y :: y in Insert(less, x, s) <==> y == x || y in s
  {
    if s != [] && !less(x, s[0]) {
      InsertElements(less, x, s[1..]);
      assert s == [s[0]] + s[1..];
    }
  }

  lemma {:induction false} InsertDistinct(less: (Field, Field) -> bool, x: Field, s: seq<Field>)
    requires DistinctKeys(s) && forall f :: f in s ==> f.key != x.key
    ensures DistinctKeys(Insert(less, x, s))
  {
    if s != [] && !less(x, s[0]) {
      var rest := Insert(less, x, s[1..]);
      InsertDistinct(less, x, s[1..]);
      InsertElements(less, x, s[1..]);
      forall i | 0 <= i < |rest| ensures rest[i].key != s[0].key {
        assert rest[i] in rest;
      }
    }
  }

  lemma {:induction false} FilterElements<T>(p: T -> bool, s: seq<T>)
    ensures forall x :: x in Filter(p, s) <==> x in s && p(x)
  {
    if s != [] {
      FilterElements(p, s[1..]);
      assert s == [s[0]] + s[1..];
    }
  }

  lemma {:induction false} FilterDistinct(p: Field -> bool, s: seq<Field>)
    requires DistinctKeys(s)
    ensures DistinctKeys(Filter(p, s))
  {
    if s != [] {
      FilterDistinct(p, s[1..]);
      FilterElements(p, s[1..]);
      var rest := Filter(p, s[1..]);
      forall i | 0 <= i < |rest| ensures rest[i].key != s[0].key {
        assert rest[i] in s[1..];
      }
    }
  }

  lemma FromEntriesElements(entries: seq<Field>)
    ensures Elements(FromEntries(entries)) == Elements(entries)
    ensures DistinctKeys(entries) ==> DistinctKeys(FromEntries(entries))
  {
    var indexes, names := Filter(f => IsIndex(f), entries), Filter(f => !IsIndex(f), entries);
    FilterElements(f => IsIndex(f), entries);
    FilterElements(f => !IsIndex(f), entries);
    SortFieldsElements(IndexLess, indexes);
    var sorted := SortFields(IndexLess, indexes);
    assert forall f :: f in sorted <==> f in Elements(sorted);
    assert forall f :: f in indexes <==> f in Elements(indexes);
    if DistinctKeys(entries) {
      FilterDistinct(f => IsIndex(f), entries);
      FilterDistinct(f => !IsIndex(f), entries);
      forall i, j | 0 <= i < |sorted| && 0 <= j < |names| ensures sorted[i].key != names[j].key {
        assert sorted[i] in sorted && names[j] in names;
      }
    }
  }

  // Sorting by key forgets the order the fields came in.
  lemma SortForgets(a: seq<Field>, b: seq<Field>)
    requires DistinctKeys(a) && DistinctKeys(b) && Elements(a) == Elements(b)
    ensures SortFields(FieldLess, a) == SortFields(FieldLess, b)
  {
    FieldOrder();
    SortedByKey(a);
    SortedByKey(b);
    ListingUnique(FieldLess, SortFields(FieldLess, a), SortFields(FieldLess, b));
  }

  lemma FieldOrder()
    ensures StrictOrder(FieldLess)
    ensures forall a: Field, b: Field :: a.key != b.key ==> FieldLess(a, b) || FieldLess(b, a)
  {
    assert StrictOrder(UnitLess);
    forall a: Field ensures !FieldLess(a, a) { LexIrreflexive(UnitLess, a.key); }
    forall a: Field, b: Field, c: Field | FieldLess(a, b) && FieldLess(b, c) ensures FieldLess(a, c) {
      LexTransitive(UnitLess, a.key, b.key, c.key);
    }
    forall a: Field, b: Field | a.key != b.key ensures FieldLess(a, b) || FieldLess(b, a) {
      LexTotal(UnitLess, a.key, b.key);
    }
  }

  lemma SortedByKey(fields: seq<Field>)
    requires DistinctKeys(fields)
    ensures Sorted(FieldLess, SortFields(FieldLess, fields))
    ensures Elements(SortFields(FieldLess, fields)) == Elements(fields)
  {
    FieldOrder();
    forall x, y | x in Elements(fields) && y in Elements(fields) && x != y ensures FieldLess(x, y) || FieldLess(y, x) {
      var i :| 0 <= i < |fields| && fields[i] == x;
      var j :| 0 <= j < |fields| && fields[j] == y;
      assert i < j || j < i;
    }
    SortFieldsSorted(FieldLess, fields);
    SortFieldsElements(FieldLess, fields);
  }

  lemma {:induction false} SortFieldsSorted(less: (Field, Field) -> bool, fields: seq<Field>)
    requires StrictOrder(less) && TotalOn(less, Elements(fields)) && DistinctKeys(fields)
    ensures Sorted(less, SortFields(less, fields))
  {
    if fields != [] {
      var rest := SortFields(less, fields[1..]);
      assert forall f :: f in Elements(fields) <==> f == fields[0] || f in Elements(fields[1..]);
      SortFieldsSorted(less, fields[1..]);
      SortFieldsElements(less, fields[1..]);
      assert forall f :: f in rest <==> f in Elements(rest);
      assert fields[0] !in fields[1..];
      InsertSorted(less, fields[0], rest);
    }
  }

  // ------------------------------------------------ normal forms decide SameForm

  // The normalised fields are the defined ones, each with its value normalised.
  lemma {:induction false} NormalizeFieldsMeaning(fields: seq<Field>)
    ensures forall f :: f in NormalizeFields(fields) <==>
              exists i :: 0 <= i < |fields| && fields[i].value != Undefined
                          && f == Field(fields[i].key, Normalize(fields[i].value))
    ensures DistinctKeys(fields) ==> DistinctKeys(NormalizeFields(fields))
  {
    if fields != [] {
      var tail := fields[1..];
      NormalizeFieldsMeaning(tail);
      assert forall i :: 0 <= i < |tail| ==> tail[i] == fields[i + 1];
      assert forall i :: 0 < i < |fields| ==> fields[i] == tail[i - 1];
      if DistinctKeys(fields) {
        assert DistinctKeys(tail);
        forall f | f in NormalizeFields(tail) ensures f.key != fields[0].key {
        }
      }
    }
  }

  // The fields of the two records correspond: same defined keys, equal normal forms under them.
  ghost predicate SameNormalFields(fs: seq<Field>, gs: seq<Field>) {
    && (forall key :: Defines(fs, key) <==> Defines(gs, key))
    && (forall i, j ::
          (&& 0 <= i < |fs| && 0 <= j < |gs| && fs[i].key == gs[j].key
           && fs[i].value != Undefined && gs[j].value != Undefined)
          ==> Normalize(fs[i].value) == Normalize(gs[j].value))
  }

  lemma NormalizedKeys(fields: seq<Field>)
    ensures forall f :: f in NormalizeFields(fields) ==> Defines(fields, f.key)
    ensures forall i :: 0 <= i < |fields| && fields[i].value != Undefined ==>
              Field(fields[i].key, Normalize(fields[i].value)) in NormalizeFields(fields)
    ensures DistinctKeys(fields) ==>
              forall f, i :: f in NormalizeFields(fields) && 0 <= i < |fields| && fields[i].key == f.key ==>
                f.value == Normalize(fields[i].value) && fields[i].value != Undefined
  {
    NormalizeFieldsMeaning(fields);
  }

  lemma FieldsInclude(fs: seq<Field>, gs: seq<Field>)
    requires SameNormalFields(fs, gs)
    ensures forall f :: f in NormalizeFields(fs) ==> f in NormalizeFields(gs)
  {
    NormalizeFieldsMeaning(fs);
    NormalizedKeys(gs);
    forall f | f in NormalizeFields(fs) ensures f in NormalizeFields(gs) {
      var i :| 0 <= i < |fs| && fs[i].value != Undefined && f == Field(fs[i].key, Normalize(fs[i].value));
      assert Defines(gs, f.key);
      var j :| 0 <= j < |gs| && gs[j].key == f.key && gs[j].value != Undefined;
      assert f == Field(gs[j].key, Normalize(gs[j].value));
    }
  }

  lemma FieldsDecide(fs: seq<Field>, gs: seq<Field>)
    requires DistinctKeys(fs) && DistinctKeys(gs)
    ensures Normalize(Obj(fs)) == Normalize(Obj(gs)) <==> SameNormalFields(fs, gs)
  {
    var a, b := NormalizeFields(fs), NormalizeFields(gs);
    NormalizeFieldsMeaning(fs);
    NormalizeFieldsMeaning(gs);
    if SameNormalFields(fs, gs) {
      FieldsInclude(fs, gs);
      FieldsInclude(gs, fs);
      assert Elements(a) == Elements(b);
      SortForgets(a, b);
    }
    if Normalize(Obj(fs)) == Normalize(Obj(gs)) {
      RecordElements(a);
      RecordElements(b);
      assert forall f :: f in a <==> f in b by {
        assert forall f :: f in a <==> f in Elements(a);
        assert forall f :: f in b <==> f in Elements(b);
      }
      DefinedAlike(fs, gs);
      DefinedAlike(gs, fs);
    }
  }

  lemma RecordElements(fields: seq<Field>)
    ensures Elements(FromEntries(SortFields(FieldLess, fields))) == Elements(fields)
  {
    SortFieldsElements(FieldLess, fields);
    FromEntriesElements(SortFields(FieldLess, fields));
  }

  lemma DefinedAlike(fs: seq<Field>, gs: seq<Field>)
    requires DistinctKeys(gs) && forall f :: f in NormalizeFields(fs) ==> f in NormalizeFields(gs)
    ensures forall key :: Defines(fs, key) ==> Defines(gs, key)
    ensures forall i, j ::
              (&& 0 <= i < |fs| && 0 <= j < |gs| && fs[i].key == gs[j].key
               && fs[i].value != Undefined && gs[j].value != Undefined)
              ==> Normalize(fs[i].value) == Normalize(gs[j].value)
  {
    NormalizedKeys(fs);
    NormalizedKeys(gs);
    forall i | 0 <= i < |fs| && fs[i].value != Undefined
      ensures Field(fs[i].key, Normalize(fs[i].value)) in NormalizeFields(gs)
    {
    }
  }

  // Two values have the same normal form exactly when they are equal up to form.
  lemma {:induction false} NormalFormDecides(a: Value, b: Value)
    requires WellFormed(a) && WellFormed(b)
    ensures Normalize(a) == Normalize(b) <==> SameForm(a, b)
    decreases a
  {
    if a.Arr? && b.Arr? && |a.items| == |b.items| {
      forall i | 0 <= i < |a.items|
        ensures Normalize(a.items[i]) == Normalize(b.items[i]) <==> SameForm(a.items[i], b.items[i])
      {
        NormalFormDecides(a.items[i], b.items[i]);
      }
      var xs, ys := NormalizeItems(a.items), NormalizeItems(b.items);
      assert xs == ys <==> forall i :: 0 <= i < |xs| ==> xs[i] == ys[i];
    } else if a.Obj? && b.Obj? {
      FieldsDecide(a.fields, b.fields);
      forall i, j | 0 <= i < |a.fields| && 0 <= j < |b.fields|
        ensures Normalize(a.fields[i].value) == Normalize(b.fields[j].value) <==>
                SameForm(a.fields[i].value, b.fields[j].value)
      {
        NormalFormDecides(a.fields[i].value, b.fields[j].value);
      }
    }
  }

  // A value and its normal form are equal up to form.
  lemma {:induction false} NormalizeKeepsForm(v: Value)
    requires WellFormed(v)
    ensures WellFormed(Normalize(v)) && SameForm(v, Normalize(v))
  {
    match v
    case Arr(items) =>
      forall i | 0 <= i < |items| ensures WellFormed(Normalize(items[i])) && SameForm(items[i], Normalize(items[i])) {
        NormalizeKeepsForm(items[i]);
      }
    case Obj(fields) =>
      forall i | 0 <= i < |fields|
        ensures WellFormed(Normalize(fields[i].value)) && SameForm(fields[i].value, Normalize(fields[i].value))
      {
        NormalizeKeepsForm(fields[i].value);
      }
      RecordKeepsForm(fields);
    case _ =>
  }

  lemma RecordKeepsForm(fields: seq<Field>)
    requires DistinctKeys(fields)
    requires forall i :: 0 <= i < |fields| ==>
               WellFormed(Normalize(fields[i].value)) && SameForm(fields[i].value, Normalize(fields[i].value))
    ensures WellFormed(Normalize(Obj(fields))) && SameForm(Obj(fields), Normalize(Obj(fields)))
  {
    var normal := NormalizeFields(fields);
    var record := FromEntries(SortFields(FieldLess, normal));
    NormalizeFieldsMeaning(fields);
    NormalizedKeys(fields);
    SortFieldsElements(FieldLess, normal);
    FromEntriesElements(SortFields(FieldLess, normal));
    forall i | 0 <= i < |record| ensures record[i] in normal && record[i].value != Undefined {
      assert record[i] in Elements(record);
      assert record[i] in Elements(normal);
    }
    forall f | f in normal ensures Defines(record, f.key) {
      assert f in Elements(normal);
      assert f in Elements(record);
      var i :| 0 <= i < |record| && record[i] == f;
    }
    forall key ensures Defines(fields, key) <==> Defines(record, key) {
    }
  }

  // Normalising twice is normalising once.
  lemma NormalizeIdempotent(v: Value)
    requires WellFormed(v)
    ensures Normalize(Normalize(v)) == Normalize(v)
  {
    NormalizeKeepsForm(v);
    NormalFormDecides(v, Normalize(v));
  }
}
