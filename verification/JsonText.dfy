/**
 The JSON text of normalised values, after sections 4 to 7 of RFC 8259, with a reader for it. The
 reader recovers the value, so equal texts come from equal normal forms.
 */
module JsonText {
  import opened CanonicalJson

  const QUOTE: Unit := 34
  const COMMA: Unit := 44
  const MINUS: Unit := 45
  const COLON: Unit := 58
  const OPEN_BRACKET: Unit := 91
  const BACKSLASH: Unit := 92
  const CLOSE_BRACKET: Unit := 93
  const OPEN_BRACE: Unit := 123
  const CLOSE_BRACE: Unit := 125
  const NULL_TEXT: Text := [110, 117, 108, 108]
  const TRUE_TEXT: Text := [116, 114, 117, 101]
  const FALSE_TEXT: Text := [102, 97, 108, 115, 101]

  // The characters of sections 2, 3 and 7 of RFC 8259.
  lemma Punctuation()
    ensures QUOTE == '\"' as int && BACKSLASH == '\\' as int && COMMA == ',' as int && COLON == ':' as int
    ensures MINUS == '-' as int && OPEN_BRACKET == '[' as int && CLOSE_BRACKET == ']' as int
    ensures OPEN_BRACE == '{' as int && CLOSE_BRACE == '}' as int
    ensures NULL_TEXT == ['n' as int, 'u' as int, 'l' as int, 'l' as int]
    ensures TRUE_TEXT == ['t' as int, 'r' as int, 'u' as int, 'e' as int]
    ensures FALSE_TEXT == ['f' as int, 'a' as int, 'l' as int, 's' as int, 'e' as int]
  {
  }

  // --------------------------------------------------------------------- printer

  function PrintNat(n: nat): Text {
    if n < 10 then [48 + n] else PrintNat(n / 10) + [48 + n % 10]
  }

  function PrintInt(n: int): Text {
    if n < 0 then [MINUS] + PrintNat(-n) else PrintNat(n)
  }

  function HexDigit(n: int): Unit
    requires 0 <= n < 16
  {
    if n < 10 then 48 + n else 87 + n
  }

  function Hex4(c: Unit): Text {
    var n: int := c;
    [HexDigit(n / 16 / 16 / 16), HexDigit(n / 16 / 16 % 16), HexDigit(n / 16 % 16), HexDigit(n % 16)]
  }

  predicate IsLead(c: Unit) { 0xD800 <= c < 0xDC00 }

  predicate IsTrail(c: Unit) { 0xDC00 <= c < 0xE000 }

  // A surrogate without its other half.
  predicate LoneSurrogate(s: Text, i: nat)
    requires i < |s|
  {
    || (IsLead(s[i]) && !(i + 1 < |s| && IsTrail(s[i + 1])))
    || (IsTrail(s[i]) && !(i > 0 && IsLead(s[i - 1])))
  }

  // The letter of a two-character escape, if the unit has one.
  function ShortEscape(c: Unit): Unit {
    if c == 8 then 98 else if c == 9 then 116 else if c == 10 then 110 else if c == 12 then 102
    else if c == 13 then 114 else if c == QUOTE || c == BACKSLASH then c else 0
  }

  function PrintUnit(s: Text, i: nat): Text
    requires i < |s|
  {
    if ShortEscape(s[i]) != 0 then [BACKSLASH, ShortEscape(s[i])]
    else if s[i] < 32 || LoneSurrogate(s, i) then [BACKSLASH, 117] + Hex4(s[i])
    else [s[i]]
  }

  // Which units are escaped, and how: section 7 of RFC 8259, with the short forms it has, except for the
  // solidus; and lone surrogates, as ECMAScript's JSON.stringify does.
  lemma UnitMeaning(s: Text, i: nat)
    requires i < |s|
    ensures var c, text := s[i], PrintUnit(s, i);
            && (text == [c] <==> c >= 32 && c != '\"' as int && c != '\\' as int && !LoneSurrogate(s, i))
            && (c == '\"' as int || c == '\\' as int ==> text == ['\\' as int, c])
            && (c == 8 ==> text == ['\\' as int, 'b' as int])
            && (c == 9 ==> text == ['\\' as int, 't' as int])
            && (c == 10 ==> text == ['\\' as int, 'n' as int])
            && (c == 12 ==> text == ['\\' as int, 'f' as int])
            && (c == 13 ==> text == ['\\' as int, 'r' as int])
            && (|text| > 2 ==> text == ['\\' as int, 'u' as int] + Hex4(c))
            && forall k :: 0 <= k < |text| ==> text[k] >= 32
  {
  }

  function PrintUnits(s: Text, i: nat): Text
    requires i <= |s|
    decreases |s| - i
  {
    if i == |s| then [QUOTE] else PrintUnit(s, i) + PrintUnits(s, i + 1)
  }

  function PrintString(s: Text): Text {
    [QUOTE] + PrintUnits(s, 0)
  }

  function Print(v: Value): Text {
    match v
    case Undefined => NULL_TEXT
    case Null => NULL_TEXT
    case Bool(b) => if b then TRUE_TEXT else FALSE_TEXT
    case Num(n) => PrintInt(n)
    case Str(s) => PrintString(s)
    case Arr(items) => [OPEN_BRACKET] + PrintItems(items, true)
    case Obj(fields) => [OPEN_BRACE] + PrintFields(fields, true)
  }

  function PrintItems(items: seq<Value>, first: bool): Text {
    if items == [] then [CLOSE_BRACKET]
    else (if first then [] else [COMMA]) + Print(items[0]) + PrintItems(items[1..], false)
  }

  function PrintFields(fields: seq<Field>, first: bool): Text {
    if fields == [] then [CLOSE_BRACE]
    else
      (if first then [] else [COMMA]) + PrintString(fields[0].key) + [COLON] + Print(fields[0].value) +
      PrintFields(fields[1..], false)
  }

  // `stableStringify`
  function StableStringify(v: Value): Text {
    Print(Normalize(v))
  }

  // ---------------------------------------------------------------------- reader

  datatype Read<T> = Bad | Got(value: T, rest: Text)

  function ReadDigits(acc: nat, t: Text): (nat, Text)
    ensures |ReadDigits(acc, t).1| <= |t|
    decreases |t|
  {
    if t != [] && IsDigit(t[0]) then
      var digit: int := t[0];
      ReadDigits(acc * 10 + (digit - 48), t[1..])
    else (acc, t)
  }

  function ReadInt(t: Text): (r: Read<int>)
    ensures r.Got? ==> |r.rest| < |t|
  {
    if t == [] then Bad
    else if IsDigit(t[0]) then
      var digit: int := t[0];
      var (n, rest) := ReadDigits(digit - 48, t[1..]);
      Got(n, rest)
    else if t[0] == MINUS && |t| > 1 && IsDigit(t[1]) then
      var (n, rest) := ReadDigits(0, t[1..]);
      var negated: int := 0 - n;
      Got(negated, rest)
    else Bad
  }

  function HexValue(c: Unit): int {
    if 48 <= c <= 57 then c - 48 else if 97 <= c <= 102 then c - 87 else -1
  }

  function LongEscape(letter: Unit): Unit {
    if letter == 98 then 8 else if letter == 116 then 9 else if letter == 110 then 10
    else if letter == 102 then 12 else if letter == 114 then 13 else letter
  }

  // The units up to the closing quote.
  function ReadUnits(t: Text): (r: Read<Text>)
    ensures r.Got? ==> |r.rest| < |t|
    decreases |t|
  {
    if t == [] then Bad
    else if t[0] == QUOTE then Got([], t[1..])
    else if t[0] != BACKSLASH then Prepend(t[0], ReadUnits(t[1..]))
    else if |t| < 2 then Bad
    else if t[1] != 117 then Prepend(LongEscape(t[1]), ReadUnits(t[2..]))
    else if |t| < 6 || HexValue(t[2]) < 0 || HexValue(t[3]) < 0 || HexValue(t[4]) < 0 || HexValue(t[5]) < 0 then Bad
    else
      var c: int := HexValue(t[2]) * 4096 + HexValue(t[3]) * 256 + HexValue(t[4]) * 16 + HexValue(t[5]);
      Prepend(c, ReadUnits(t[6..]))
  }

  function Prepend(c: Unit, r: Read<Text>): Read<Text> {
    if r.Bad? then Bad else Got([c] + r.value, r.rest)
  }

  function ReadWord<T>(word: Text, value: T, t: Text): (r: Read<T>)
    requires word != []
    ensures r.Got? ==> |r.rest| < |t|
  {
    if word <= t then Got(value, t[|word|..]) else Bad
  }

  function ReadValue(t: Text): (r: Read<Value>)
    ensures r.Got? ==> |r.rest| < |t|
    decreases |t|, 0
  {
    if t == [] then Bad
    else if t[0] == NULL_TEXT[0] then ReadWord(NULL_TEXT, Null, t)
    else if t[0] == TRUE_TEXT[0] then ReadWord(TRUE_TEXT, Bool(true), t)
    else if t[0] == FALSE_TEXT[0] then ReadWord(FALSE_TEXT, Bool(false), t)
    else if t[0] == QUOTE then
      match ReadUnits(t[1..])
      case Bad => Bad
      case Got(s, rest) => Got(Str(s), rest)
    else if t[0] == OPEN_BRACKET then
      match ReadItems(t[1..], true)
      case Bad => Bad
      case Got(items, rest) => Got(Arr(items), rest)
    else if t[0] == OPEN_BRACE then
      match ReadFields(t[1..], true)
      case Bad => Bad
      case Got(fields, rest) => Got(Obj(fields), rest)
    else
      match ReadInt(t)
      case Bad => Bad
      case Got(n, rest) => Got(Num(n), rest)
  }

  function ReadItems(t: Text, first: bool): (r: Read<seq<Value>>)
    ensures r.Got? ==> |r.rest| < |t|
    decreases |t|, 1
  {
    if t == [] then Bad
    else if t[0] == CLOSE_BRACKET then Got([], t[1..])
    else if !first && t[0] != COMMA then Bad
    else
      match ReadValue(if first then t else t[1..])
      case Bad => Bad
      case Got(v, rest) =>
        match ReadItems(rest, false)
        case Bad => Bad
        case Got(vs, rest') => Got([v] + vs, rest')
  }

  function ReadFields(t: Text, first: bool): (r: Read<seq<Field>>)
    ensures r.Got? ==> |r.rest| < |t|
    decreases |t|, 1
  {
    if t == [] then Bad
    else if t[0] == CLOSE_BRACE then Got([], t[1..])
    else if !first && t[0] != COMMA then Bad
    else
      match ReadField(if first then t else t[1..])
      case Bad => Bad
      case Got(f, rest) =>
        match ReadFields(rest, false)
        case Bad => Bad
        case Got(fs, rest') => Got([f] + fs, rest')
  }

  function ReadField(t: Text): (r: Read<Field>)
    ensures r.Got? ==> |r.rest| < |t|
    decreases |t|, 0
  {
    if t == [] || t[0] != QUOTE then Bad
    else
      match ReadUnits(t[1..])
      case Bad => Bad
      case Got(key, rest) =>
        if rest == [] || rest[0] != COLON then Bad
        else
          match ReadValue(rest[1..])
          case Bad => Bad
          case Got(v, rest') => Got(Field(key, v), rest')
  }

  // ------------------------------------------------------------------ round trip

  ghost predicate NoDigit(t: Text) {
    t == [] || !IsDigit(t[0])
  }

  lemma {:induction false} ReadDigitsAppend(acc: nat, a: Text, t: Text)
    requires forall i :: 0 <= i < |a| ==> IsDigit(a[i])
    ensures 0 <= Decimal(acc, a) && ReadDigits(acc, a + t) == ReadDigits(Decimal(acc, a), t)
    decreases |a|
  {
    if a == [] {
      assert a + t == t;
    } else {
      var digit: int := a[0];
      assert (a + t)[0] == a[0] && (a + t)[1..] == a[1..] + t;
      ReadDigitsAppend(acc * 10 + (digit - 48), a[1..], t);
    }
  }

  lemma {:induction false} DecimalAppend(acc: int, a: Text, b: Text)
    ensures Decimal(acc, a + b) == Decimal(Decimal(acc, a), b)
    decreases |a|
  {
    if a == [] {
      assert a + b == b;
    } else {
      var digit: int := a[0];
      assert (a + b)[0] == a[0] && (a + b)[1..] == a[1..] + b;
      DecimalAppend(acc * 10 + (digit - 48), a[1..], b);
    }
  }

  lemma {:induction false} PrintNatMeaning(n: nat)
    ensures PrintNat(n) != [] && forall i :: 0 <= i < |PrintNat(n)| ==> IsDigit(PrintNat(n)[i])
    ensures Decimal(0, PrintNat(n)) == n
  {
    if n < 10 {
      assert [48 + n][1..] == [];
    } else {
      PrintNatMeaning(n / 10);
      var last: Text := [48 + n % 10];
      DecimalAppend(0, PrintNat(n / 10), last);
      assert last[1..] == [];
    }
  }

  lemma IntRoundTrip(n: int, t: Text)
    requires NoDigit(t)
    ensures ReadInt(PrintInt(n) + t) == Got(n, t)
  {
    if n < 0 {
      NegativeRoundTrip(n, t);
    } else {
      NatRoundTrip(n, t);
    }
  }

  lemma NatRoundTrip(n: nat, t: Text)
    requires NoDigit(t)
    ensures ReadInt(PrintNat(n) + t) == Got(n, t)
  {
    var digits := PrintNat(n);
    PrintNatMeaning(n);
    ReadDigitsAppend(0, digits, t);
    assert (digits + t)[1..] == digits[1..] + t;
  }

  lemma NegativeRoundTrip(n: int, t: Text)
    requires NoDigit(t) && n < 0
    ensures ReadInt([MINUS] + PrintNat(-n) + t) == Got(n, t)
  {
    var digits := PrintNat(-n);
    PrintNatMeaning(-n);
    ReadDigitsAppend(0, digits, t);
    assert ([MINUS] + digits + t)[1..] == digits + t;
  }

  lemma HexDigitRoundTrip(n: int)
    requires 0 <= n < 16
    ensures HexValue(HexDigit(n)) == n
  {
  }

  lemma HexRoundTrip(c: Unit)
    ensures var h := Hex4(c);
            && |h| == 4
            && HexValue(h[0]) >= 0 && HexValue(h[1]) >= 0 && HexValue(h[2]) >= 0 && HexValue(h[3]) >= 0
            && HexValue(h[0]) * 4096 + HexValue(h[1]) * 256 + HexValue(h[2]) * 16 + HexValue(h[3]) == c
  {
    var n: int := c;
    HexDigitRoundTrip(n / 16 / 16 / 16);
    HexDigitRoundTrip(n / 16 / 16 % 16);
    HexDigitRoundTrip(n / 16 % 16);
    HexDigitRoundTrip(n % 16);
  }

  lemma EscapedRoundTrip(c: Unit, t: Text)
    ensures ReadUnits([BACKSLASH, 117] + Hex4(c) + t) == Prepend(c, ReadUnits(t))
  {
    HexRoundTrip(c);
    var h := Hex4(c);
    assert h == [h[0], h[1], h[2], h[3]];
    var text := [BACKSLASH, 117] + h + t;
    assert text[2] == h[0] && text[3] == h[1] && text[4] == h[2] && text[5] == h[3];
    assert text[6..] == t;
  }

  lemma UnitRoundTrip(s: Text, i: nat, t: Text)
    requires i < |s|
    ensures ReadUnits(PrintUnit(s, i) + t) == Prepend(s[i], ReadUnits(t))
  {
    if ShortEscape(s[i]) != 0 {
      assert ([BACKSLASH, ShortEscape(s[i])] + t)[2..] == t;
    } else if s[i] < 32 || LoneSurrogate(s, i) {
      EscapedRoundTrip(s[i], t);
    } else {
      assert ([s[i]] + t)[1..] == t;
    }
  }

  lemma {:induction false} UnitsRoundTrip(s: Text, i: nat, t: Text)
    requires i <= |s|
    ensures ReadUnits(PrintUnits(s, i) + t) == Got(s[i..], t)
    decreases |s| - i
  {
    if i == |s| {
      assert ([QUOTE] + t)[1..] == t;
    } else {
      assert PrintUnits(s, i) + t == PrintUnit(s, i) + (PrintUnits(s, i + 1) + t);
      UnitRoundTrip(s, i, PrintUnits(s, i + 1) + t);
      UnitsRoundTrip(s, i + 1, t);
      assert s[i..] == [s[i]] + s[i + 1..];
    }
  }

  // Nothing undefined anywhere, as normalisation leaves it.
  ghost predicate Printable(v: Value) {
    match v
    case Undefined => false
    case Arr(items) => forall i :: 0 <= i < |items| ==> Printable(items[i])
    case Obj(fields) => forall i :: 0 <= i < |fields| ==> Printable(fields[i].value)
    case _ => true
  }

  lemma PrintStart(v: Value)
    ensures Print(v) != [] && Print(v)[0] !in {COMMA, COLON, CLOSE_BRACKET, CLOSE_BRACE}
  {
    if v.Num? {
      PrintNatMeaning(if v.n < 0 then -v.n else v.n);
    }
  }

  lemma WordRoundTrip<T>(word: Text, value: T, t: Text)
    requires word != []
    ensures ReadWord(word, value, word + t) == Got(value, t)
  {
    assert (word + t)[|word|..] == t;
  }

  lemma ScalarRoundTrip(v: Value, t: Text)
    requires v.Null? || v.Bool? || v.Num? || v.Str?
    requires NoDigit(t)
    ensures ReadValue(Print(v) + t) == Got(v, t)
  {
    match v
    case Null => WordRoundTrip(NULL_TEXT, Null, t);
    case Bool(b) =>
      WordRoundTrip(TRUE_TEXT, Bool(true), t);
      WordRoundTrip(FALSE_TEXT, Bool(false), t);
    case Num(n) =>
      PrintNatMeaning(if n < 0 then -n else n);
      IntRoundTrip(n, t);
    case Str(s) =>
      assert (PrintString(s) + t)[1..] == PrintUnits(s, 0) + t;
      UnitsRoundTrip(s, 0, t);
  }

  lemma ArrayReads(text: Text, items: seq<Value>, t: Text)
    requires ReadItems(text, true) == Got(items, t)
    ensures ReadValue([OPEN_BRACKET] + text) == Got(Arr(items), t)
  {
    assert ([OPEN_BRACKET] + text)[1..] == text;
  }

  lemma RecordReads(text: Text, fields: seq<Field>, t: Text)
    requires ReadFields(text, true) == Got(fields, t)
    ensures ReadValue([OPEN_BRACE] + text) == Got(Obj(fields), t)
  {
    assert ([OPEN_BRACE] + text)[1..] == text;
  }

  lemma {:induction false} RoundTrip(v: Value, t: Text)
    requires Printable(v) && NoDigit(t)
    ensures ReadValue(Print(v) + t) == Got(v, t)
    decreases v, 1
  {
    if v.Arr? {
      ItemsRoundTrip(v.items, true, t);
      ArrayReads(PrintItems(v.items, true) + t, v.items, t);
      assert Print(v) + t == [OPEN_BRACKET] + (PrintItems(v.items, true) + t);
    } else if v.Obj? {
      FieldsRoundTrip(v.fields, true, t);
      RecordReads(PrintFields(v.fields, true) + t, v.fields, t);
      assert Print(v) + t == [OPEN_BRACE] + (PrintFields(v.fields, true) + t);
    } else {
      ScalarRoundTrip(v, t);
    }
  }

  lemma {:induction false} ItemsRoundTrip(items: seq<Value>, first: bool, t: Text)
    requires forall i :: 0 <= i < |items| ==> Printable(items[i])
    ensures ReadItems(PrintItems(items, first) + t, first) == Got(items, t)
    decreases items, 0
  {
    if items == [] {
      assert ([CLOSE_BRACKET] + t)[1..] == t;
    } else {
      var more := PrintItems(items[1..], false) + t;
      RoundTrip(items[0], more);
      ItemsRoundTrip(items[1..], false, t);
      PrintStart(items[0]);
      ItemsStep(first, Print(items[0]) + more, items[0], more, items[1..], t);
      Regroup3(if first then [] else [COMMA], Print(items[0]), PrintItems(items[1..], false), t);
      assert items == [items[0]] + items[1..];
    }
  }

  lemma ItemsStep(first: bool, item: Text, v: Value, more: Text, vs: seq<Value>, t: Text)
    requires item != [] && item[0] != CLOSE_BRACKET
    requires ReadValue(item) == Got(v, more) && ReadItems(more, false) == Got(vs, t)
    ensures ReadItems((if first then [] else [COMMA]) + item, first) == Got([v] + vs, t)
  {
    var text := (if first then [] else [COMMA]) + item;
    assert (if first then text else text[1..]) == item;
  }

  lemma Regroup3(a: Text, b: Text, c: Text, t: Text)
    ensures a + b + c + t == a + (b + (c + t))
  {
  }

  lemma FieldRoundTrip(f: Field, t: Text)
    requires ReadValue(Print(f.value) + t) == Got(f.value, t)
    ensures ReadField(PrintString(f.key) + [COLON] + Print(f.value) + t) == Got(f, t)
  {
    var value := [COLON] + (Print(f.value) + t);
    var text := [QUOTE] + (PrintUnits(f.key, 0) + value);
    assert PrintString(f.key) + [COLON] + Print(f.value) + t == text;
    assert text[1..] == PrintUnits(f.key, 0) + value;
    UnitsRoundTrip(f.key, 0, value);
    assert value[1..] == Print(f.value) + t;
  }

  lemma ReadFieldsStep(first: bool, member: Text, f: Field, more: Text, fs: seq<Field>, t: Text)
    requires member != [] && member[0] == QUOTE
    requires ReadField(member) == Got(f, more) && ReadFields(more, false) == Got(fs, t)
    ensures ReadFields((if first then [] else [COMMA]) + member, first) == Got([f] + fs, t)
  {
    var text := (if first then [] else [COMMA]) + member;
    assert (if first then text else text[1..]) == member;
  }

  lemma FieldsStep(fields: seq<Field>, first: bool, more: Text, t: Text)
    requires fields != [] && more == PrintFields(fields[1..], false) + t
    requires ReadValue(Print(fields[0].value) + more) == Got(fields[0].value, more)
    requires ReadFields(more, false) == Got(fields[1..], t)
    ensures ReadFields(PrintFields(fields, first) + t, first) == Got([fields[0]] + fields[1..], t)
  {
    FieldRoundTrip(fields[0], more);
    FieldsText(fields, first, t);
    ReadFieldsStep(first, PrintString(fields[0].key) + [COLON] + Print(fields[0].value) + more,
                   fields[0], more, fields[1..], t);
  }

  lemma FieldsText(fields: seq<Field>, first: bool, t: Text)
    requires fields != []
    ensures PrintFields(fields, first) + t ==
            (if first then [] else [COMMA]) +
            (PrintString(fields[0].key) + [COLON] + Print(fields[0].value) + (PrintFields(fields[1..], false) + t))
  {
    Regroup(if first then [] else [COMMA], PrintString(fields[0].key), Print(fields[0].value),
            PrintFields(fields[1..], false), t);
  }

  lemma Regroup(a: Text, b: Text, c: Text, d: Text, t: Text)
    ensures a + b + [COLON] + c + d + t == a + (b + [COLON] + c + (d + t))
  {
  }

  lemma {:induction false} FieldsRoundTrip(fields: seq<Field>, first: bool, t: Text)
    requires forall i :: 0 <= i < |fields| ==> Printable(fields[i].value)
    ensures ReadFields(PrintFields(fields, first) + t, first) == Got(fields, t)
    decreases fields, 0
  {
    if fields == [] {
      assert ([CLOSE_BRACE] + t)[1..] == t;
    } else {
      var more := PrintFields(fields[1..], false) + t;
      assert NoDigit(more);
      RoundTrip(fields[0].value, more);
      FieldsRoundTrip(fields[1..], false, t);
      FieldsStep(fields, first, more, t);
      assert fields == [fields[0]] + fields[1..];
    }
  }

  // ------------------------------------------------------------------ main results

  lemma {:induction false} NormalPrintable(v: Value)
    ensures Printable(Normalize(v))
  {
    match v
    case Arr(items) =>
      forall i | 0 <= i < |items| ensures Printable(Normalize(items[i])) { NormalPrintable(items[i]); }
    case Obj(fields) =>
      forall i | 0 <= i < |fields| ensures Printable(Normalize(fields[i].value)) { NormalPrintable(fields[i].value); }
      NormalizeFieldsMeaning(fields);
      RecordElements(NormalizeFields(fields));
      var record := FromEntries(SortFields(FieldLess, NormalizeFields(fields)));
      forall i | 0 <= i < |record| ensures Printable(record[i].value) {
        assert record[i] in record;
        assert record[i] in Prelude.Elements(NormalizeFields(fields));
      }
    case _ =>
  }

  // Reading the canonical text gives the normal form back.
  lemma CanonicalTextReadsBack(v: Value)
    ensures ReadValue(StableStringify(v)) == Got(Normalize(v), [])
  {
    NormalPrintable(v);
    RoundTrip(Normalize(v), []);
    assert Print(Normalize(v)) + [] == Print(Normalize(v));
  }

  // Two values have the same canonical text exactly when they are equal up to form.
  lemma CanonicalTextDecides(a: Value, b: Value)
    requires WellFormed(a) && WellFormed(b)
    ensures StableStringify(a) == StableStringify(b) <==> SameForm(a, b)
  {
    CanonicalTextReadsBack(a);
    CanonicalTextReadsBack(b);
    NormalFormDecides(a, b);
  }
}
