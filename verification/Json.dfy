/**
  Canonical JSON text: object fields sorted by key, strings escaped, no
  whitespace.  Two values have the same text exactly when they differ at most in
  the order of object keys.
 */
module Json {
  import opened Base
  import opened Wire

  /** A number is carried as the text it prints as, an object as its fields in any order. */
  datatype Value =
    | Null
    | Bool(b: bool)
    | Number(text: Text)
    | Str(text: Text)
    | Array(items: seq<Value>)
    | Object(fields: seq<Field>)

  datatype Field = Field(key: Text, value: Value)

  const COMMA: Byte := 44
  const COLON: Byte := 58
  const QUOTE: Byte := 34
  const BACKSLASH: Byte := 92

  // ----- Which values there are -----

  predicate NumberByte(b: Byte) {
    InRange(b, 48, 57) || b == 43 || b == 45 || b == 46 || b == 69 || b == 101
  }

  predicate GoodNumber(text: Text) {
    text != [] && (InRange(text[0], 48, 57) || text[0] == 45) && forall i :: 0 <= i < |text| ==> NumberByte(text[i])
  }

  predicate DistinctKeys(fields: seq<Field>) {
    forall i, j :: 0 <= i < j < |fields| ==> fields[i].key != fields[j].key
  }

  predicate Good(v: Value) {
    match v
    case Number(text) => GoodNumber(text)
    case Array(items) => forall i :: 0 <= i < |items| ==> Good(items[i])
    case Object(fields) => DistinctKeys(fields) && forall i :: 0 <= i < |fields| ==> Good(fields[i].value)
    case _ => true
  }

  // ----- The same up to key order -----

  predicate Same(a: Value, b: Value) {
    match a
    case Array(items) =>
      b.Array? && |items| == |b.items| && forall i :: 0 <= i < |items| ==> Same(items[i], b.items[i])
    case Object(fields) =>
      && b.Object?
      && |fields| == |b.fields|
      && forall i :: 0 <= i < |fields| ==>
           exists j ::
             0 <= j < |b.fields| && b.fields[j].key == fields[i].key && Same(fields[i].value, b.fields[j].value)
    case _ => a == b
  }

  // ----- Sorting by key -----

  function Insert(f: Field, sorted: seq<Field>): seq<Field> {
    if sorted == [] || !Less(sorted[0].key, f.key) then [f] + sorted
    else [sorted[0]] + Insert(f, sorted[1..])
  }

  function SortFields(fields: seq<Field>): seq<Field> {
    if fields == [] then [] else Insert(fields[0], SortFields(fields[1..]))
  }

  predicate Sorted(fields: seq<Field>) {
    forall i, j :: 0 <= i < j < |fields| ==> Less(fields[i].key, fields[j].key)
  }

  lemma {:induction false} InsertMultiset(f: Field, sorted: seq<Field>)
    ensures multiset(Insert(f, sorted)) == multiset(sorted) + multiset{f}
  {
    if sorted != [] && Less(sorted[0].key, f.key) {
      InsertMultiset(f, sorted[1..]);
      assert sorted == [sorted[0]] + sorted[1..];
    }
  }

  /** Sorting keeps every field, once. */
  lemma {:induction false} SortMultiset(fields: seq<Field>)
    ensures multiset(SortFields(fields)) == multiset(fields) && |SortFields(fields)| == |fields|
  {
    hide Insert;
    if fields != [] {
      SortMultiset(fields[1..]);
      InsertMultiset(fields[0], SortFields(fields[1..]));
      assert fields == [fields[0]] + fields[1..];
    }
    hide SortFields;
    assert |multiset(SortFields(fields))| == |SortFields(fields)| && |multiset(fields)| == |fields|;
  }

  lemma {:induction false} InsertSorted(f: Field, sorted: seq<Field>)
    requires Sorted(sorted) && forall i :: 0 <= i < |sorted| ==> sorted[i].key != f.key
    ensures Sorted(Insert(f, sorted))
  {
    if sorted != [] {
      LessTotal(sorted[0].key, f.key);
      if Less(sorted[0].key, f.key) {
        InsertSorted(f, sorted[1..]);
        InsertMultiset(f, sorted[1..]);
        var rest := Insert(f, sorted[1..]);
        forall i | 0 <= i < |rest|
          ensures Less(sorted[0].key, rest[i].key)
        {
          assert rest[i] in multiset(rest);
          assert rest[i] == f || rest[i] in sorted[1..];
        }
      } else {
        forall i | 0 <= i < |sorted|
          ensures Less(f.key, sorted[i].key)
        {
          if i > 0 {
            LessTransitive(f.key, sorted[0].key, sorted[i].key);
          }
        }
      }
    }
  }

  lemma {:induction false} SortSorts(fields: seq<Field>)
    requires DistinctKeys(fields)
    ensures Sorted(SortFields(fields))
  {
    if fields != [] {
      SortSorts(fields[1..]);
      SortMultiset(fields[1..]);
      var rest := SortFields(fields[1..]);
      forall i | 0 <= i < |rest|
        ensures rest[i].key != fields[0].key
      {
        assert rest[i] in multiset(rest);
        assert rest[i] in fields[1..];
      }
      InsertSorted(fields[0], rest);
    }
  }

  // ----- Strings -----

  function Hex(d: nat): Byte
    requires d < 16
  {
    if d < 10 then 48 + d else 87 + d
  }

  function Escape(b: Byte): (r: Bytes)
    ensures r != [] && r[0] != QUOTE
  {
    if b == QUOTE || b == BACKSLASH then [BACKSLASH, b]
    else if b == 8 then [BACKSLASH, 98]
    else if b == 9 then [BACKSLASH, 116]
    else if b == 10 then [BACKSLASH, 110]
    else if b == 12 then [BACKSLASH, 102]
    else if b == 13 then [BACKSLASH, 114]
    else if b < 32 then [BACKSLASH, 117, 48, 48, Hex(b / 16), Hex(b % 16)]
    else [b]
  }

  function EscapeAll(s: Text): Bytes {
    if s == [] then [] else Escape(s[0]) + EscapeAll(s[1..])
  }

  function Quote(s: Text): Bytes {
    [QUOTE] + EscapeAll(s) + [QUOTE]
  }

  lemma Cancel(x: Bytes, ra: Bytes, rb: Bytes)
    requires x + ra == x + rb
    ensures ra == rb
  {
    assert (x + ra)[|x|..] == ra && (x + rb)[|x|..] == rb;
  }

  lemma EscapeText(b: Byte, c: Byte, ra: Bytes, rb: Bytes)
    requires Escape(b) + ra == Escape(c) + rb
    ensures b == c && ra == rb
  {
    var x, y := Escape(b), Escape(c);
    assert (x + ra)[0] == x[0] && (y + rb)[0] == y[0];
    if x[0] == BACKSLASH {
      assert (x + ra)[1] == x[1] && (y + rb)[1] == y[1];
      if x[1] == 117 {
        assert (x + ra)[4] == x[4] && (y + rb)[4] == y[4];
        assert (x + ra)[5] == x[5] && (y + rb)[5] == y[5];
      }
    }
    assert b == c;
    Cancel(x, ra, rb);
  }

  /** The closing quote is the first one that is not escaped. */
  lemma {:induction false} QuotedText(s: Text, t: Text, ra: Bytes, rb: Bytes)
    requires EscapeAll(s) + ([QUOTE] + ra) == EscapeAll(t) + ([QUOTE] + rb)
    ensures s == t && ra == rb
  {
    hide Escape;
    if s == [] || t == [] {
      QuoteEnds(s, ra);
      QuoteEnds(t, rb);
      assert EscapeAll(s) == EscapeAll(t) == [];
      assert ra == ([QUOTE] + ra)[1..] && rb == ([QUOTE] + rb)[1..];
      assert [] + ([QUOTE] + ra) == [QUOTE] + ra && [] + ([QUOTE] + rb) == [QUOTE] + rb;
    } else {
      Assoc(Escape(s[0]), EscapeAll(s[1..]), [QUOTE] + ra);
      Assoc(Escape(t[0]), EscapeAll(t[1..]), [QUOTE] + rb);
      EscapeText(s[0], t[0], EscapeAll(s[1..]) + ([QUOTE] + ra), EscapeAll(t[1..]) + ([QUOTE] + rb));
      QuotedText(s[1..], t[1..], ra, rb);
      assert s == [s[0]] + s[1..] && t == [t[0]] + t[1..];
    }
  }

  lemma QuoteEnds(s: Text, rest: Bytes)
    ensures (EscapeAll(s) + ([QUOTE] + rest))[0] == QUOTE <==> s == []
    ensures s == [] <==> EscapeAll(s) == []
  {
    if s != [] {
      assert (EscapeAll(s) + ([QUOTE] + rest))[0] == Escape(s[0])[0];
    }
  }

  // ----- Text of values -----

  function Size(v: Value): nat {
    match v
    case Array(items) => 1 + ItemsSize(items)
    case Object(fields) => 1 + FieldsSize(fields)
    case _ => 1
  }

  function ItemsSize(items: seq<Value>): nat {
    if items == [] then 0 else Size(items[0]) + ItemsSize(items[1..])
  }

  function FieldsSize(fields: seq<Field>): nat {
    if fields == [] then 0 else Size(fields[0].value) + FieldsSize(fields[1..])
  }

  lemma {:induction false} InsertSize(f: Field, sorted: seq<Field>)
    ensures FieldsSize(Insert(f, sorted)) == Size(f.value) + FieldsSize(sorted)
  {
    if sorted != [] && Less(sorted[0].key, f.key) {
      InsertSize(f, sorted[1..]);
      assert Insert(f, sorted)[1..] == Insert(f, sorted[1..]);
    } else {
      assert ([f] + sorted)[1..] == sorted;
    }
  }

  lemma {:induction false} SortSize(fields: seq<Field>)
    ensures FieldsSize(SortFields(fields)) == FieldsSize(fields)
  {
    if fields != [] {
      SortSize(fields[1..]);
      InsertSize(fields[0], SortFields(fields[1..]));
    }
  }

  function Join(parts: seq<Bytes>): Bytes {
    if parts == [] then [] else if |parts| == 1 then parts[0] else parts[0] + [COMMA] + Join(parts[1..])
  }

  function Canonical(v: Value): Bytes
    decreases Size(v), 0
  {
    match v
    case Null => [110, 117, 108, 108]
    case Bool(b) => if b then [116, 114, 117, 101] else [102, 97, 108, 115, 101]
    case Number(text) => text
    case Str(text) => Quote(text)
    case Array(items) => [91] + Join(ItemTexts(items)) + [93]
    case Object(fields) => SortSize(fields); [123] + Join(FieldTexts(SortFields(fields))) + [125]
  }

  function ItemTexts(items: seq<Value>): (r: seq<Bytes>)
    ensures |r| == |items|
    decreases ItemsSize(items), 1
  {
    if items == [] then [] else [Canonical(items[0])] + ItemTexts(items[1..])
  }

  function FieldText(f: Field): Bytes
    decreases Size(f.value), 1
  {
    Quote(f.key) + [COLON] + Canonical(f.value)
  }

  function FieldTexts(fields: seq<Field>): (r: seq<Bytes>)
    ensures |r| == |fields|
    decreases FieldsSize(fields), 2
  {
    if fields == [] then [] else [FieldText(fields[0])] + FieldTexts(fields[1..])
  }

  // ----- Reading a text back -----

  /** What may follow a value inside a text: nothing, or a separator. */
  predicate Ends(rest: Bytes) {
    rest == [] || rest[0] == COMMA || rest[0] == 93 || rest[0] == 125
  }

  /** The first byte of a value's text, which tells its kind. */
  function Lead(v: Value): Byte
    requires Good(v)
  {
    match v
    case Null => 110
    case Bool(b) => if b then 116 else 102
    case Number(text) => text[0]
    case Str(_) => QUOTE
    case Array(_) => 91
    case Object(_) => 123
  }

  lemma LeadByte(v: Value, rest: Bytes)
    requires Good(v)
    ensures Canonical(v) != [] && (Canonical(v) + rest)[0] == Lead(v)
    ensures Lead(v) != COMMA && Lead(v) != 93 && Lead(v) != 125
  {
    hide EscapeAll, Join, ItemTexts, FieldTexts;
  }

  lemma {:induction false} NumberText(s: Text, t: Text, ra: Bytes, rb: Bytes)
    requires (forall i :: 0 <= i < |s| ==> NumberByte(s[i])) && (forall i :: 0 <= i < |t| ==> NumberByte(t[i]))
    requires Ends(ra) && Ends(rb) && s + ra == t + rb
    ensures s == t && ra == rb
  {
    if s == [] || t == [] {
      assert [] + ra == ra && [] + rb == rb;
    } else {
      assert (s + ra)[0] == s[0] && (t + rb)[0] == t[0];
      assert (s + ra)[1..] == s[1..] + ra && (t + rb)[1..] == t[1..] + rb;
      NumberText(s[1..], t[1..], ra, rb);
      assert s == [s[0]] + s[1..] && t == [t[0]] + t[1..];
    }
  }

  /** What follows the first part of a list that ends with `close`. */
  function After(parts: seq<Bytes>, close: Byte, rest: Bytes): Bytes {
    if parts == [] then [close] + rest else [COMMA] + (Join(parts) + ([close] + rest))
  }

  lemma JoinHead(parts: seq<Bytes>, close: Byte, rest: Bytes)
    requires parts != []
    ensures Join(parts) + ([close] + rest) == parts[0] + After(parts[1..], close, rest)
  {
    if |parts| > 1 {
      var head, more := parts[0], Join(parts[1..]);
      hide Join;
      Assoc(head + [COMMA], more, [close] + rest);
      Assoc(head, [COMMA], more + ([close] + rest));
    }
  }

  lemma AfterSame(pa: seq<Bytes>, pb: seq<Bytes>, close: Byte, ra: Bytes, rb: Bytes)
    requires close != COMMA && After(pa, close, ra) == After(pb, close, rb)
    ensures pa == [] <==> pb == []
    ensures pa == [] ==> ra == rb
    ensures Join(pa) + ([close] + ra) == Join(pb) + ([close] + rb)
  {
    hide Join;
    assert After(pa, close, ra)[0] == if pa == [] then close else COMMA;
    assert After(pb, close, rb)[0] == if pb == [] then close else COMMA;
    if pa == [] {
      Cancel([close], ra, rb);
    } else {
      Cancel([COMMA], Join(pa) + ([close] + ra), Join(pb) + ([close] + rb));
    }
  }

  predicate GoodItems(items: seq<Value>) {
    forall i :: 0 <= i < |items| ==> Good(items[i])
  }

  predicate GoodFields(fields: seq<Field>) {
    forall i :: 0 <= i < |fields| ==> Good(fields[i].value)
  }

  /** The same keys in the same places, with values that are the same. */
  predicate Aligned(a: seq<Field>, b: seq<Field>) {
    |a| == |b| && forall i :: 0 <= i < |a| ==> a[i].key == b[i].key && Same(a[i].value, b[i].value)
  }

  /** A value can be read off the front of a text in one way only. */
  lemma {:induction false} ValueText(a: Value, b: Value, ra: Bytes, rb: Bytes)
    requires Good(a) && Good(b) && Ends(ra) && Ends(rb)
    requires Canonical(a) + ra == Canonical(b) + rb
    ensures Same(a, b) && ra == rb
    decreases Size(a), 0
  {
    LeadByte(a, ra);
    LeadByte(b, rb);
    match a {
      case Number(text) => NumberText(text, b.text, ra, rb);
      case Str(text) => StringText(text, b.text, ra, rb);
      case Array(items) =>
        Bracketed(91, Join(ItemTexts(items)), 93, ra, Join(ItemTexts(b.items)), rb);
        ItemsText(items, b.items, ra, rb);
      case Object(fields) =>
        SortSize(fields);
        SortGood(fields);
        SortGood(b.fields);
        Bracketed(123, Join(FieldTexts(SortFields(fields))), 125, ra, Join(FieldTexts(SortFields(b.fields))), rb);
        FieldsText(SortFields(fields), SortFields(b.fields), ra, rb);
        AlignedIsSame(fields, b.fields);
      case _ => Cancel(Canonical(a), ra, rb);
    }
  }

  lemma StringText(s: Text, t: Text, ra: Bytes, rb: Bytes)
    requires Quote(s) + ra == Quote(t) + rb
    ensures s == t && ra == rb
  {
    hide EscapeAll;
    Bracketed(QUOTE, EscapeAll(s), QUOTE, ra, EscapeAll(t), rb);
    QuotedText(s, t, ra, rb);
  }

  lemma Bracketed(open: Byte, x: Bytes, close: Byte, ra: Bytes, y: Bytes, rb: Bytes)
    requires ([open] + x + [close]) + ra == ([open] + y + [close]) + rb
    ensures x + ([close] + ra) == y + ([close] + rb)
  {
    assert ([open] + x + [close]) + ra == [open] + (x + ([close] + ra));
    assert ([open] + y + [close]) + rb == [open] + (y + ([close] + rb));
    Cancel([open], x + ([close] + ra), y + ([close] + rb));
  }

  lemma {:induction false} ItemsText(a: seq<Value>, b: seq<Value>, ra: Bytes, rb: Bytes)
    requires GoodItems(a) && GoodItems(b)
    requires Join(ItemTexts(a)) + ([93] + ra) == Join(ItemTexts(b)) + ([93] + rb)
    ensures |a| == |b| && (forall i :: 0 <= i < |a| ==> Same(a[i], b[i])) && ra == rb
    decreases ItemsSize(a), 1
  {
    hide Join, Same, Good, Canonical;
    EmptyList(ItemTexts(a), 93, ra);
    EmptyList(ItemTexts(b), 93, rb);
    if a != [] {
      JoinHead(ItemTexts(a), 93, ra);
      LeadByte(a[0], After(ItemTexts(a[1..]), 93, ra));
    }
    if b != [] {
      JoinHead(ItemTexts(b), 93, rb);
      LeadByte(b[0], After(ItemTexts(b[1..]), 93, rb));
    }
    if a == [] {
      Cancel([93], ra, rb);
    } else {
      var ta, tb := ItemTexts(a[1..]), ItemTexts(b[1..]);
      ValueText(a[0], b[0], After(ta, 93, ra), After(tb, 93, rb));
      AfterSame(ta, tb, 93, ra, rb);
      ItemsText(a[1..], b[1..], ra, rb);
    }
  }

  lemma EmptyList(parts: seq<Bytes>, close: Byte, rest: Bytes)
    ensures parts == [] ==> Join(parts) + ([close] + rest) == [close] + rest
  {
    assert [] + ([close] + rest) == [close] + rest;
  }

  lemma FieldSplit(f: Field, rest: Bytes)
    ensures FieldText(f) + rest == Quote(f.key) + ([COLON] + (Canonical(f.value) + rest))
    ensures (FieldText(f) + rest)[0] == QUOTE
  {
    hide Canonical, EscapeAll;
    assert (Quote(f.key) + [COLON] + Canonical(f.value)) + rest ==
           Quote(f.key) + ([COLON] + (Canonical(f.value) + rest));
  }

  lemma {:induction false} FieldsText(a: seq<Field>, b: seq<Field>, ra: Bytes, rb: Bytes)
    requires GoodFields(a) && GoodFields(b)
    requires Join(FieldTexts(a)) + ([125] + ra) == Join(FieldTexts(b)) + ([125] + rb)
    ensures Aligned(a, b) && ra == rb
    decreases FieldsSize(a), 1
  {
    hide Join, Same, Good, FieldText;
    EmptyList(FieldTexts(a), 125, ra);
    EmptyList(FieldTexts(b), 125, rb);
    if a != [] {
      JoinHead(FieldTexts(a), 125, ra);
      FieldSplit(a[0], After(FieldTexts(a[1..]), 125, ra));
    }
    if b != [] {
      JoinHead(FieldTexts(b), 125, rb);
      FieldSplit(b[0], After(FieldTexts(b[1..]), 125, rb));
    }
    if a == [] {
      Cancel([125], ra, rb);
    } else {
      var ta, tb := FieldTexts(a[1..]), FieldTexts(b[1..]);
      var va, vb := Canonical(a[0].value) + After(ta, 125, ra), Canonical(b[0].value) + After(tb, 125, rb);
      StringText(a[0].key, b[0].key, [COLON] + va, [COLON] + vb);
      Cancel([COLON], va, vb);
      ValueText(a[0].value, b[0].value, After(ta, 125, ra), After(tb, 125, rb));
      AfterSame(ta, tb, 125, ra, rb);
      FieldsText(a[1..], b[1..], ra, rb);
    }
  }

  // ----- Sorted fields against fields in any order -----

  lemma SortGood(fields: seq<Field>)
    requires GoodFields(fields)
    ensures GoodFields(SortFields(fields))
  {
    SortMultiset(fields);
    forall i | 0 <= i < |SortFields(fields)|
      ensures Good(SortFields(fields)[i].value)
    {
      assert SortFields(fields)[i] in multiset(fields);
    }
  }

  lemma AlignedIsSame(a: seq<Field>, b: seq<Field>)
    requires Aligned(SortFields(a), SortFields(b))
    ensures Same(Object(a), Object(b))
  {
    SortMultiset(a);
    SortMultiset(b);
    var sa, sb := SortFields(a), SortFields(b);
    assert |a| == |b|;
    forall i | 0 <= i < |a|
      ensures exists j :: 0 <= j < |b| && b[j].key == a[i].key && Same(a[i].value, b[j].value)
    {
      var k := PlaceOf(a, i, sa);
      var j := PlaceOf(sb, k, b);
      assert b[j].key == a[i].key && Same(a[i].value, b[j].value);
    }
  }

  lemma PlaceOf(a: seq<Field>, i: nat, b: seq<Field>) returns (j: nat)
    requires multiset(a) == multiset(b) && i < |a|
    ensures j < |b| && b[j] == a[i]
  {
    assert a[i] in multiset(a);
    assert a[i] in b;
    j :| 0 <= j < |b| && b[j] == a[i];
  }

  ghost function Keys(fields: seq<Field>): set<Text> {
    set f | f in fields :: f.key
  }

  lemma {:induction false} KeyCount(fields: seq<Field>)
    requires Sorted(fields)
    ensures |Keys(fields)| == |fields|
  {
    if fields != [] {
      KeyCount(fields[1..]);
      assert fields == [fields[0]] + fields[1..];
      assert Keys(fields) == Keys(fields[1..]) + {fields[0].key};
      forall f | f in fields[1..]
        ensures f.key != fields[0].key
      {
        LessTotal(fields[0].key, f.key);
      }
    }
  }

  /** Every field of `a` has a partner in `b`. */
  predicate Partnered(a: seq<Field>, b: seq<Field>) {
    forall i :: 0 <= i < |a| ==> HasPartner(a[i], b)
  }

  predicate HasPartner(f: Field, b: seq<Field>) {
    exists j :: 0 <= j < |b| && b[j].key == f.key && Same(f.value, b[j].value)
  }

  /** Of two sorted lists with the same keys, the first fields belong together. */
  lemma FirstPartners(a: seq<Field>, b: seq<Field>)
    requires Sorted(a) && Sorted(b) && |a| == |b| > 0 && Partnered(a, b)
    ensures a[0].key == b[0].key && Same(a[0].value, b[0].value)
  {
    hide Same;
    KeyCount(a);
    KeyCount(b);
    assert Keys(a) <= Keys(b) by {
      forall f | f in a
        ensures f.key in Keys(b)
      {
        assert HasPartner(f, b);
      }
    }
    SubsetCardinality(Keys(a), Keys(b));
    assert b[0].key in Keys(b);
    var i :| 0 <= i < |a| && a[i].key == b[0].key;
    assert HasPartner(a[0], b);
    var j :| 0 <= j < |b| && b[j].key == a[0].key && Same(a[0].value, b[j].value);
    LessTotal(a[0].key, b[0].key);
  }

  /** The partner of a later field is a later field. */
  lemma LaterPartner(a: seq<Field>, b: seq<Field>, i: nat)
    requires Sorted(a) && 0 < |b| && i + 1 < |a| && a[0].key == b[0].key && HasPartner(a[i + 1], b)
    ensures HasPartner(a[i + 1], b[1..])
  {
    hide Same, Less;
    var f := a[i + 1];
    var j :| 0 <= j < |b| && b[j].key == f.key && Same(f.value, b[j].value);
    LessTotal(a[0].key, f.key);
    assert b[1..][j - 1] == b[j];
  }

  lemma SortedRest(a: seq<Field>)
    requires Sorted(a) && a != []
    ensures Sorted(a[1..])
  {
    hide Less;
  }

  lemma {:induction false} PartnersAlign(a: seq<Field>, b: seq<Field>)
    requires Sorted(a) && Sorted(b) && |a| == |b| && Partnered(a, b)
    ensures Aligned(a, b)
  {
    hide Same, Sorted, HasPartner;
    if a != [] {
      FirstPartners(a, b);
      forall i: nat | i < |a[1..]|
        ensures HasPartner(a[1..][i], b[1..])
      {
        assert a[1..][i] == a[i + 1];
        LaterPartner(a, b, i);
      }
      SortedRest(a);
      SortedRest(b);
      PartnersAlign(a[1..], b[1..]);
    }
  }

  lemma SameIsAligned(a: seq<Field>, b: seq<Field>)
    requires DistinctKeys(a) && DistinctKeys(b) && Same(Object(a), Object(b))
    ensures Aligned(SortFields(a), SortFields(b))
  {
    SortMultiset(a);
    SortMultiset(b);
    SortSorts(a);
    SortSorts(b);
    var sa, sb := SortFields(a), SortFields(b);
    forall i | 0 <= i < |sa|
      ensures HasPartner(sa[i], sb)
    {
      assert sa[i] in multiset(a);
      var k :| 0 <= k < |a| && a[k] == sa[i];
      var j :| 0 <= j < |b| && b[j].key == a[k].key && Same(a[k].value, b[j].value);
      assert b[j] in multiset(sb);
      var l :| 0 <= l < |sb| && sb[l] == b[j];
    }
    PartnersAlign(sa, sb);
  }

  /** Key order makes no difference to the text. */
  lemma {:induction false} SameText(a: Value, b: Value)
    requires Good(a) && Good(b) && Same(a, b)
    ensures Canonical(a) == Canonical(b)
    decreases Size(a), 0
  {
    match a {
      case Array(items) => SameItems(items, b.items);
      case Object(fields) =>
        SortSize(fields);
        SortGood(fields);
        SortGood(b.fields);
        SameIsAligned(fields, b.fields);
        SameFields(SortFields(fields), SortFields(b.fields));
      case _ =>
    }
  }

  lemma {:induction false} SameItems(a: seq<Value>, b: seq<Value>)
    requires GoodItems(a) && GoodItems(b) && |a| == |b| && forall i :: 0 <= i < |a| ==> Same(a[i], b[i])
    ensures ItemTexts(a) == ItemTexts(b)
    decreases ItemsSize(a), 1
  {
    hide Same, Good, Canonical;
    if a != [] {
      SameText(a[0], b[0]);
      SameItems(a[1..], b[1..]);
    }
  }

  lemma {:induction false} SameFields(a: seq<Field>, b: seq<Field>)
    requires GoodFields(a) && GoodFields(b) && Aligned(a, b)
    ensures FieldTexts(a) == FieldTexts(b)
    decreases FieldsSize(a), 1
  {
    hide Same, Good, Canonical;
    if a != [] {
      SameText(a[0].value, b[0].value);
      SameFields(a[1..], b[1..]);
    }
  }

  /** The canonical text determines a value, and is determined by it, up to the order of object keys. */
  lemma CanonicalIff(a: Value, b: Value)
    requires Good(a) && Good(b)
    ensures Canonical(a) == Canonical(b) <==> Same(a, b)
  {
    if Canonical(a) == Canonical(b) {
      ValueText(a, b, [], []);
    }
    if Same(a, b) {
      SameText(a, b);
    }
  }
}
