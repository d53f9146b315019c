/**
 The entitlement query: the clauses and parameters the store builds, the parameters as the in-memory
 database takes them apart again, and its listing through an index against the plain query.
 */
module EntitlementQuery {
  import opened Prelude
  import opened Contracts
  import opened Ordering
  import opened OrderedIndex

  function KindText(kind: SubjectKind): string {
    match kind
    case UserSubject => "user"
    case OrgSubject => "org"
    case MembershipSubject => "membership"
  }

  // ---------------------------------------------------------------- the store's side

  // `(subject_kind = $k AND subject_id = $i)`
  datatype Clause = Clause(kindParam: nat, idParam: nat)

  datatype Param = Str(text: string) | Other

  function Params(subjects: seq<Subject>): seq<Param> {
    if subjects == [] then []
    else Params(Front(subjects)) + [Str(KindText(Last(subjects).kind)), Str(Last(subjects).id)]
  }

  method BuildSubjectClauses(subjects: seq<Subject>) returns (clauses: seq<Clause>, values: seq<Param>)
    ensures |clauses| == |subjects| && values == Params(subjects)
    ensures forall i :: 0 <= i < |subjects| ==> OwnParams(clauses[i], values, subjects[i])
  {
    clauses, values := [], [];
    for index := 0 to |subjects|
      invariant |clauses| == index && values == Params(subjects[..index])
      invariant forall i :: 0 <= i < index ==> clauses[i] == Clause(i * 2 + 1, i * 2 + 2)
    {
      assert Front(subjects[..index + 1]) == subjects[..index];
      clauses := clauses + [Clause(index * 2 + 1, index * 2 + 2)];
      values := values + [Str(KindText(subjects[index].kind)), Str(subjects[index].id)];
    }
    assert subjects[..|subjects|] == subjects;
    forall i | 0 <= i < |subjects| ensures OwnParams(clauses[i], values, subjects[i]) {
      ParamsAt(subjects, i);
    }
  }

  lemma {:induction false} ParamsAt(subjects: seq<Subject>, i: nat)
    requires i < |subjects|
    ensures |Params(subjects)| == 2 * |subjects|
    ensures Params(subjects)[i * 2] == Str(KindText(subjects[i].kind))
    ensures Params(subjects)[i * 2 + 1] == Str(subjects[i].id)
  {
    if |subjects| > 1 {
      ParamsAt(Front(subjects), if i < |subjects| - 1 then i else 0);
    }
  }

  // The clause's two numbers point at its own subject.
  predicate OwnParams(c: Clause, values: seq<Param>, s: Subject) {
    && 1 <= c.kindParam <= |values| && values[c.kindParam - 1] == Str(KindText(s.kind))
    && 1 <= c.idParam <= |values| && values[c.idParam - 1] == Str(s.id)
  }

  // What the database makes of a clause, and of their disjunction.
  predicate Holds(c: Clause, values: seq<Param>, row: Entitlement) {
    && 1 <= c.kindParam <= |values| && values[c.kindParam - 1] == Str(KindText(row.subject.kind))
    && 1 <= c.idParam <= |values| && values[c.idParam - 1] == Str(row.subject.id)
  }

  ghost predicate Selected(clauses: seq<Clause>, values: seq<Param>, row: Entitlement) {
    exists c :: c in clauses && Holds(c, values, row)
  }

  // The query selects the rows of the given subjects.
  lemma SelectedMeaning(subjects: seq<Subject>, clauses: seq<Clause>, values: seq<Param>, row: Entitlement)
    requires |clauses| == |subjects|
    requires forall i :: 0 <= i < |subjects| ==> OwnParams(clauses[i], values, subjects[i])
    ensures Selected(clauses, values, row) <==> row.subject in subjects
  {
    forall i | 0 <= i < |subjects| ensures Holds(clauses[i], values, row) <==> row.subject == subjects[i] {
      assert KindText(row.subject.kind) == KindText(subjects[i].kind) <==> row.subject.kind == subjects[i].kind by {
        KindsDiffer(row.subject.kind, subjects[i].kind);
      }
    }
    if row.subject in subjects {
      var i :| 0 <= i < |subjects| && subjects[i] == row.subject;
      assert clauses[i] in clauses;
    }
  }

  lemma KindsDiffer(a: SubjectKind, b: SubjectKind)
    ensures KindText(a)[0] == KindText(b)[0] <==> a == b
  {
  }

  // ------------------------------------------------------------ the parameters decoded

  function ParamAt(params: seq<Param>, i: nat): Param {
    if i < |params| then params[i] else Other
  }

  // Pair k, if both of its parameters are texts.
  function PairAt(params: seq<Param>, k: nat): seq<(string, string)> {
    var kind, id := ParamAt(params, 2 * k), ParamAt(params, 2 * k + 1);
    if kind.Str? && id.Str? then [(kind.text, id.text)] else []
  }

  function PairsUpTo(params: seq<Param>, n: nat): seq<(string, string)> {
    if n == 0 then [] else PairsUpTo(params, n - 1) + PairAt(params, n - 1)
  }

  // A pair that is not all text is left out.
  function Extracted(params: seq<Param>): seq<(string, string)> {
    PairsUpTo(params, (|params| + 1) / 2)
  }

  method ExtractSubjects(params: seq<Param>) returns (subjects: seq<(string, string)>)
    ensures subjects == Extracted(params)
  {
    subjects := [];
    var index := 0;
    ghost var n := 0;
    while index < |params|
      invariant index == 2 * n && n <= (|params| + 1) / 2
      invariant subjects == PairsUpTo(params, n)
      decreases |params| - index
    {
      var kind, id := params[index], ParamAt(params, index + 1);
      if kind.Str? && id.Str? {
        subjects := subjects + [(kind.text, id.text)];
      }
      index, n := index + 2, n + 1;
    }
  }

  function Pair(s: Subject): (string, string) {
    (KindText(s.kind), s.id)
  }

  function Pairs(subjects: seq<Subject>): seq<(string, string)> {
    seq(|subjects|, i requires 0 <= i < |subjects| => Pair(subjects[i]))
  }

  lemma {:induction false} PairsOfParams(subjects: seq<Subject>, n: nat)
    requires n <= |subjects|
    ensures |Params(subjects)| == 2 * |subjects|
    ensures PairsUpTo(Params(subjects), n) == Pairs(subjects[..n])
  {
    ParamsLength(subjects);
    if n > 0 {
      PairsOfParams(subjects, n - 1);
      ParamsAt(subjects, n - 1);
      assert Pairs(subjects[..n]) == Pairs(subjects[..n - 1]) + [Pair(subjects[n - 1])];
    }
  }

  lemma {:induction false} ParamsLength(subjects: seq<Subject>)
    ensures |Params(subjects)| == 2 * |subjects|
  {
    if subjects != [] {
      ParamsLength(Front(subjects));
    }
  }

  // Taking the parameters apart gives back the subjects.
  lemma DecodesSubjects(subjects: seq<Subject>)
    ensures |Params(subjects)| == 2 * |subjects|
    ensures Extracted(Params(subjects)) == Pairs(subjects)
  {
    PairsOfParams(subjects, |subjects|);
    assert subjects[..|subjects|] == subjects;
  }

  function Encoded(pairs: seq<(string, string)>): seq<Param> {
    if pairs == [] then [] else Encoded(Front(pairs)) + [Str(Last(pairs).0), Str(Last(pairs).1)]
  }

  predicate AllText(params: seq<Param>) {
    forall p <- params :: p.Str?
  }

  // And a list of parameters is taken apart without loss exactly when it is made of pairs of texts.
  lemma NothingLostExactly(params: seq<Param>)
    ensures Encoded(Extracted(params)) == params <==> |params| % 2 == 0 && AllText(params)
  {
    var n := |params| / 2;
    NothingLostUpTo(params, n);
    if |params| == 2 * n {
      assert params[..2 * n] == params;
      assert (|params| + 1) / 2 == n;
    } else {
      assert |params| == 2 * n + 1 && (|params| + 1) / 2 == n + 1;
      assert PairAt(params, n) == [];
      assert Extracted(params) == PairsUpTo(params, n);
    }
  }

  lemma {:induction false} NothingLostUpTo(params: seq<Param>, n: nat)
    requires 2 * n <= |params|
    ensures |Encoded(PairsUpTo(params, n))| <= 2 * n
    ensures Encoded(PairsUpTo(params, n)) == params[..2 * n] <==> AllText(params[..2 * n])
  {
    if n > 0 {
      var front, kind, id := params[..2 * n - 2], params[2 * n - 2], params[2 * n - 1];
      NothingLostUpTo(params, n - 1);
      assert 2 * (n - 1) == 2 * n - 2 && params[..2 * n] == front + [kind, id];
      assert PairAt(params, n - 1) == if kind.Str? && id.Str? then [(kind.text, id.text)] else [];
      LastPair(front, kind, id, PairsUpTo(params, n - 1));
    }
  }

  lemma LastPair(front: seq<Param>, kind: Param, id: Param, pairs: seq<(string, string)>)
    requires |Encoded(pairs)| <= |front|
    ensures var more := if kind.Str? && id.Str? then [(kind.text, id.text)] else [];
            && |Encoded(pairs + more)| <= |front| + 2
            && (Encoded(pairs + more) == front + [kind, id] <==> more != [] && Encoded(pairs) == front)
    ensures AllText(front + [kind, id]) <==> AllText(front) && kind.Str? && id.Str?
  {
    if kind.Str? && id.Str? {
      assert Front(pairs + [(kind.text, id.text)]) == pairs;
      SamePrefixes(Encoded(pairs), front, [kind, id]);
    } else {
      assert pairs + [] == pairs;
    }
    assert kind in front + [kind, id] && id in front + [kind, id];
  }

  lemma SamePrefixes<T>(a: seq<T>, b: seq<T>, tail: seq<T>)
    ensures a + tail == b + tail <==> a == b
  {
    if a + tail == b + tail {
      assert a == (a + tail)[..|a|] && b == (b + tail)[..|b|];
    }
  }

  // ----------------------------------------------------------------------- the sorting

  // ORDER BY created_at, id
  function RowLess(a: Entitlement, b: Entitlement): bool {
    a.createdAt < b.createdAt || (a.createdAt == b.createdAt && StringLess(a.id, b.id))
  }

  lemma RowOrder()
    ensures StrictOrder(RowLess)
    ensures forall a: Entitlement, b: Entitlement :: a.id != b.id ==> RowLess(a, b) || RowLess(b, a)
  {
    StringOrder();
  }

  // A stable sort.
  function SortedRows(rows: seq<Entitlement>): seq<Entitlement> {
    if rows == [] then [] else Insert(RowLess, Last(rows), SortedRows(Front(rows)))
  }

  lemma {:induction false} InsertElements(x: Entitlement, s: seq<Entitlement>)
    ensures |Insert(RowLess, x, s)| == |s| + 1
    ensures forall y :: y in Insert(RowLess, x, s) <==> y in s || y == x
  {
    if s != [] && !RowLess(x, s[0]) {
      InsertElements(x, s[1..]);
      assert s == [s[0]] + s[1..];
    }
  }

  lemma {:induction false} SortElements(rows: seq<Entitlement>)
    ensures |SortedRows(rows)| == |rows|
    ensures forall y :: y in SortedRows(rows) <==> y in rows
  {
    if rows != [] {
      SortElements(Front(rows));
      InsertElements(Last(rows), SortedRows(Front(rows)));
      assert rows == Front(rows) + [Last(rows)];
    }
  }

  // No two different rows share their id.
  ghost predicate OneRowPerId(rows: seq<Entitlement>) {
    forall a, b :: a in rows && b in rows && a.id == b.id ==> a == b
  }

  lemma {:induction false} SortSorts(rows: seq<Entitlement>)
    requires Distinct(rows) && OneRowPerId(rows)
    ensures Sorted(RowLess, SortedRows(rows)) && Elements(SortedRows(rows)) == Elements(rows)
  {
    RowOrder();
    SortElements(rows);
    if rows != [] {
      var front, x := Front(rows), Last(rows);
      assert rows == front + [x] && x !in front;
      SortSorts(front);
      SortElements(front);
      InsertSorted(RowLess, x, SortedRows(front));
    }
  }

  lemma {:induction false} ElementsCount<T>(s: seq<T>)
    ensures |Elements(s)| <= |s|
    ensures Distinct(s) <==> |Elements(s)| == |s|
  {
    if s != [] {
      ElementsCount(Front(s));
      assert s == Front(s) + [Last(s)];
      assert Elements(s) == Elements(Front(s)) + {Last(s)};
      assert Last(s) in Front(s) <==> Last(s) in Elements(Front(s));
      if Last(s) !in Front(s) {
        assert Distinct(s) <==> Distinct(Front(s));
      }
    }
  }

  lemma SortedDistinct(rows: seq<Entitlement>)
    requires Sorted(RowLess, rows)
    ensures Distinct(rows)
  {
    RowOrder();
  }

  // ----------------------------------------------------------------------- the database

  type Table = t: map<Id, Entitlement> | forall id :: id in t ==> t[id].id == id witness map[]

  function PairText(pair: (string, string)): string {
    pair.0 + ":" + pair.1
  }

  function SubjectText(s: Subject): string {
    PairText(Pair(s))
  }

  lemma SubjectsDiffer(a: Subject, b: Subject)
    ensures SubjectText(a) == SubjectText(b) <==> a == b
  {
    if SubjectText(a) == SubjectText(b) {
      assert SubjectText(a)[0] == KindText(a.kind)[0] && SubjectText(b)[0] == KindText(b.kind)[0];
      KindsDiffer(a.kind, b.kind);
      SamePrefix(KindText(a.kind) + ":", a.id, b.id);
    }
  }

  function SubjectTexts(t: map<Id, Entitlement>): map<Id, string> {
    map id | id in t :: SubjectText(t[id].subject)
  }

  // The rows under one index key, sorted.
  function RowsUnder(t: Table, order: seq<Id>, key: string): seq<Entitlement> {
    SortedRows(Rowed(t, Under(order, SubjectTexts(t), key)))
  }

  function Collected(t: Table, order: seq<Id>, keys: seq<string>): seq<Entitlement> {
    if keys == [] then [] else Collected(t, order, Front(keys)) + RowsUnder(t, order, Last(keys))
  }

  function Keys(pairs: seq<(string, string)>): seq<string> {
    seq(|pairs|, i requires 0 <= i < |pairs| => PairText(pairs[i]))
  }

  class FallbackDatabase {
    var entitlements: map<Id, Entitlement>
    var entitlementSubjectIndex: Index<string, Id>
    ghost var order: seq<Id>

    ghost predicate Valid()
      reads this
    {
      && (forall id :: id in entitlements ==> entitlements[id].id == id)
      && Exact(entitlementSubjectIndex, order, SubjectTexts(entitlements))
    }

    constructor ()
      ensures Valid() && entitlements == map[]
    {
      entitlements, entitlementSubjectIndex, order := map[], map[], [];
    }

    method SetEntitlement(row: Entitlement)
      requires Valid()
      modifies this
      ensures Valid() && entitlements == old(entitlements)[row.id := row]
    {
      RefiledExact(entitlementSubjectIndex, order, SubjectTexts(entitlements), SubjectText(row.subject), row.id);
      assert SubjectTexts(entitlements[row.id := row]) ==
             SubjectTexts(entitlements)[row.id := SubjectText(row.subject)];
      if row.id in entitlements {
        entitlementSubjectIndex :=
          Removed(entitlementSubjectIndex, SubjectText(entitlements[row.id].subject), row.id);
      }
      entitlements := entitlements[row.id := row];
      entitlementSubjectIndex := Added(entitlementSubjectIndex, SubjectText(row.subject), row.id);
      order := Dropping(order, row.id) + [row.id];
    }

    method DeleteEntitlement(id: Id)
      requires Valid()
      modifies this
      ensures Valid() && entitlements == old(entitlements) - {id}
    {
      if id !in entitlements {
        assert entitlements - {id} == entitlements;
        return;
      }
      var key := SubjectText(entitlements[id].subject);
      RemovedExact(entitlementSubjectIndex, order, SubjectTexts(entitlements), key, id);
      assert SubjectTexts(entitlements - {id}) == SubjectTexts(entitlements) - {id};
      entitlements := entitlements - {id};
      entitlementSubjectIndex := Removed(entitlementSubjectIndex, key, id);
      order := Dropping(order, id);
    }

    method ListEntitlementsBySubject(kind: string, id: string) returns (rows: seq<Entitlement>)
      requires Valid()
      ensures rows == RowsUnder(entitlements, order, PairText((kind, id)))
    {
      var ids := Bucket(entitlementSubjectIndex, PairText((kind, id)));
      return SortedRows(Rowed(entitlements, ids));
    }

    method ListEntitlementsBySubjects(subjects: seq<(string, string)>) returns (rows: seq<Entitlement>)
      requires Valid()
      ensures rows == SortedRows(Collected(entitlements, order, Keys(subjects)))
    {
      var collected: seq<Entitlement> := [];
      for i := 0 to |subjects|
        invariant collected == Collected(entitlements, order, Keys(subjects[..i]))
      {
        assert Front(Keys(subjects[..i + 1])) == Keys(subjects[..i]);
        var more := ListEntitlementsBySubject(subjects[i].0, subjects[i].1);
        collected := collected + more;
      }
      assert subjects[..|subjects|] == subjects;
      return SortedRows(collected);
    }

    // The store's listing, from the subjects to the rows.
    method ListEntitlementsForSubjects(subjects: seq<Subject>) returns (rows: seq<Entitlement>)
      requires Valid()
      ensures Once(entitlements, subjects) <==>
              Sorted(RowLess, rows) && Elements(rows) == RowsOf(entitlements, subjects)
      ensures forall row :: row in rows <==> row in RowsOf(entitlements, subjects)
    {
      if subjects == [] {
        return [];
      }
      var _, values := BuildSubjectClauses(subjects);
      var pairs := ExtractSubjects(values);
      DecodesSubjects(subjects);
      ListingExact(entitlements, order, subjects);
      rows := ListEntitlementsBySubjects(pairs);
    }
  }

  // -------------------------------------------------------- the listing and the plain query

  // The whole table, filtered.
  function RowsOf(t: Table, subjects: seq<Subject>): set<Entitlement> {
    set id | id in t && t[id].subject in subjects :: t[id]
  }

  // And sorted.
  ghost function RowListing(t: Table, subjects: seq<Subject>): (s: seq<Entitlement>)
    ensures Sorted(RowLess, s) && Elements(s) == RowsOf(t, subjects)
  {
    RowOrder();
    Listing(RowLess, RowsOf(t, subjects))
  }

  // No subject that has a row is given twice.
  ghost predicate Once(t: Table, subjects: seq<Subject>) {
    forall i, j :: 0 <= i < j < |subjects| && subjects[i] == subjects[j] ==>
      forall id :: id in t ==> t[id].subject != subjects[i]
  }

  ghost predicate OrderOf(t: Table, order: seq<Id>) {
    Distinct(order) && forall id :: id in order <==> id in t
  }

  lemma {:induction false} DistinctRows(t: Table, ids: seq<Id>)
    requires Distinct(ids)
    ensures Distinct(Rowed(t, ids))
    ensures forall row :: row in Rowed(t, ids) <==> row.id in ids && row.id in t && t[row.id] == row
  {
    if ids != [] {
      assert ids == [ids[0]] + ids[1..];
      DistinctRows(t, ids[1..]);
    }
  }

  lemma {:induction false} DistinctUnder(order: seq<Id>, owner: map<Id, string>, key: string)
    requires Distinct(order)
    ensures Distinct(Under(order, owner, key))
  {
    if order != [] {
      assert order == [order[0]] + order[1..];
      DistinctUnder(order[1..], owner, key);
      UnderMeaning(order[1..], owner, key);
    }
  }

  // The rows under a key, once each.
  lemma RowsUnderMeaning(t: Table, order: seq<Id>, key: string)
    requires OrderOf(t, order)
    ensures Distinct(RowsUnder(t, order, key))
    ensures forall row :: row in RowsUnder(t, order, key) <==>
              row.id in t && t[row.id] == row && SubjectText(row.subject) == key
  {
    var owner := SubjectTexts(t);
    UnderMeaning(order, owner, key);
    DistinctUnder(order, owner, key);
    var rows := Rowed(t, Under(order, owner, key));
    DistinctRows(t, Under(order, owner, key));
    SortElements(rows);
    SortSorts(rows);
    SortedDistinct(SortedRows(rows));
  }

  // Neither list repeats a value, and they share none.
  lemma DistinctConcat<T>(a: seq<T>, b: seq<T>)
    ensures Distinct(a + b) <==> Distinct(a) && Distinct(b) && forall x :: x in a ==> x !in b
  {
    assert forall i :: 0 <= i < |a| ==> (a + b)[i] == a[i];
    assert forall i :: 0 <= i < |b| ==> (a + b)[|a| + i] == b[i];
    assert forall i :: |a| <= i < |a + b| ==> (a + b)[i] == b[i - |a|];
    if Distinct(a) && Distinct(b) && forall x :: x in a ==> x !in b {
      forall i, j | 0 <= i < j < |a + b| ensures (a + b)[i] != (a + b)[j] {
        assert i < |a| <= j ==> a[i] in a && b[j - |a|] in b;
      }
    }
  }

  ghost predicate HasRow(t: Table, key: string) {
    exists id :: id in t && SubjectText(t[id].subject) == key
  }

  ghost predicate KeysOnce(t: Table, keys: seq<string>) {
    forall i, j :: 0 <= i < j < |keys| && keys[i] == keys[j] ==> !HasRow(t, keys[i])
  }

  lemma {:induction false} CollectedMeaning(t: Table, order: seq<Id>, keys: seq<string>)
    requires OrderOf(t, order)
    ensures forall row :: row in Collected(t, order, keys) <==>
              row.id in t && t[row.id] == row && SubjectText(row.subject) in keys
    ensures Distinct(Collected(t, order, keys)) <==> KeysOnce(t, keys)
  {
    if keys != [] {
      var front, key := Front(keys), Last(keys);
      assert keys == front + [key];
      CollectedMeaning(t, order, front);
      RowsUnderMeaning(t, order, key);
      DistinctConcat(Collected(t, order, front), RowsUnder(t, order, key));
      OnceMore(t, front, key);
      SharedRow(t, Collected(t, order, front), RowsUnder(t, order, key), front, key);
    }
  }

  // The rows collected so far and those under the next key have one in common exactly when the key
  // came before and has a row.
  lemma SharedRow(t: Table, collected: seq<Entitlement>, more: seq<Entitlement>, front: seq<string>, key: string)
    requires forall row :: row in collected <==> row.id in t && t[row.id] == row && SubjectText(row.subject) in front
    requires forall row :: row in more <==> row.id in t && t[row.id] == row && SubjectText(row.subject) == key
    ensures (forall row :: row in collected ==> row !in more) <==> (key in front ==> !HasRow(t, key))
  {
    if HasRow(t, key) {
      var id :| id in t && SubjectText(t[id].subject) == key;
      assert t[id] in more;
      assert key in front ==> t[id] in collected;
    }
  }

  lemma OnceMore(t: Table, front: seq<string>, key: string)
    ensures KeysOnce(t, front + [key]) <==> KeysOnce(t, front) && (key in front ==> !HasRow(t, key))
  {
    var keys := front + [key];
    if KeysOnce(t, keys) {
      assert forall i :: 0 <= i < |front| ==> keys[i] == front[i];
      assert keys[|front|] == key;
    }
  }

  // The listing through the index is the whole table, filtered and sorted, exactly when no subject
  // that has a row is given twice. Its rows are the right ones in any case.
  lemma ListingExact(t: Table, order: seq<Id>, subjects: seq<Subject>)
    requires OrderOf(t, order)
    ensures var rows := SortedRows(Collected(t, order, Keys(Pairs(subjects))));
            && (forall row :: row in rows <==> row in RowsOf(t, subjects))
            && (Once(t, subjects) <==> Sorted(RowLess, rows) && Elements(rows) == RowsOf(t, subjects))
  {
    var keys := Keys(Pairs(subjects));
    var collected := Collected(t, order, keys);
    CollectedMeaning(t, order, keys);
    SortElements(collected);
    KeysOfSubjects(t, subjects);
    RowsOfMeaning(t, subjects);
    assert forall row :: row in SortedRows(collected) <==> row in RowsOf(t, subjects);
    SortedOnce(collected);
  }

  lemma RowsOfMeaning(t: Table, subjects: seq<Subject>)
    ensures forall row :: row in RowsOf(t, subjects) <==> row.id in t && t[row.id] == row && row.subject in subjects
  {
  }

  // Sorting gives a strictly sorted list exactly when there is nothing twice.
  lemma SortedOnce(rows: seq<Entitlement>)
    requires OneRowPerId(rows)
    ensures Sorted(RowLess, SortedRows(rows)) <==> Distinct(rows)
  {
    SortElements(rows);
    if Distinct(rows) {
      SortSorts(rows);
    }
    if Sorted(RowLess, SortedRows(rows)) {
      SortedDistinct(SortedRows(rows));
      ElementsCount(SortedRows(rows));
      ElementsCount(rows);
      assert Elements(SortedRows(rows)) == Elements(rows);
    }
  }

  lemma KeysOfSubjects(t: Table, subjects: seq<Subject>)
    ensures var keys := Keys(Pairs(subjects));
            && (forall s: Subject :: SubjectText(s) in keys <==> s in subjects)
            && (KeysOnce(t, keys) <==> Once(t, subjects))
  {
    var keys := Keys(Pairs(subjects));
    assert forall i :: 0 <= i < |keys| ==> keys[i] == SubjectText(subjects[i]);
    forall a: Subject, b: Subject ensures SubjectText(a) == SubjectText(b) <==> a == b {
      SubjectsDiffer(a, b);
    }
    forall s: Subject | s in subjects ensures SubjectText(s) in keys {
      var i :| 0 <= i < |subjects| && subjects[i] == s;
      assert keys[i] == SubjectText(s);
    }
    forall s: Subject ensures HasRow(t, SubjectText(s)) <==> exists id :: id in t && t[id].subject == s {
    }
  }

  // For distinct subjects the listing is the plain query's: the rows that the clauses select,
  // sorted by creation and id, and there is only one such list.
  lemma ListingIsTheQuery(t: Table, order: seq<Id>, subjects: seq<Subject>, clauses: seq<Clause>, values: seq<Param>)
    requires OrderOf(t, order) && Distinct(subjects) && |clauses| == |subjects|
    requires forall i :: 0 <= i < |subjects| ==> OwnParams(clauses[i], values, subjects[i])
    ensures SortedRows(Collected(t, order, Keys(Pairs(subjects)))) == RowListing(t, subjects)
    ensures forall row :: row in RowsOf(t, subjects) <==>
              row.id in t && t[row.id] == row && Selected(clauses, values, row)
  {
    RowOrder();
    ListingExact(t, order, subjects);
    ListingUnique(RowLess, SortedRows(Collected(t, order, Keys(Pairs(subjects)))), RowListing(t, subjects));
    forall row {
      SelectedMeaning(subjects, clauses, values, row);
    }
  }

  // Older rows come first; those of one time in the order of their ids.
  lemma ListingMeaning(t: Table, subjects: seq<Subject>, i: nat, j: nat)
    requires i < j < |RowListing(t, subjects)|
    ensures var rows := RowListing(t, subjects);
            && rows[i].createdAt <= rows[j].createdAt
            && (rows[i].createdAt == rows[j].createdAt ==> StringLess(rows[i].id, rows[j].id))
  {
  }

  // The kinds of subjects, as they are stored.
  lemma KindNames()
    ensures KindText(UserSubject) == "user" && KindText(OrgSubject) == "org"
    ensures KindText(MembershipSubject) == "membership"
  {
  }
}
