/** JSON values, the canonical serialisation the response cache hashes, and why it is exact. */
module CanonicalJson {
  /** A JSON value; numbers stay the tokens they are printed as, and an object keeps its insertion order. */
  datatype Json =
    | JNull
    | JBool(b: bool)
    | JNum(token: string)
    | JStr(s: string)
    | JArr(items: seq<Json>)
    | JObj(fields: seq<Field>)

  datatype Field = Field(key: string, value: Json)

  predicate NumChar(c: char) {
    '0' <= c <= '9' || c == '-' || c == '+' || c == '.' || c == 'e' || c == 'E'
  }

  predicate ValidNumber(token: string) {
    token != "" && ('0' <= token[0] <= '9' || token[0] == '-') && forall k :: 0 <= k < |token| ==> NumChar(token[k])
  }

  /** Number tokens are numbers, and no object has a key twice. */
  ghost predicate Valid(v: Json)
    decreases v, 1
  {
    match v
    case JNum(token) => ValidNumber(token)
    case JArr(items) => ValidItems(items)
    case JObj(fields) => ValidFields(fields)
    case _ => true
  }

  ghost predicate ValidItems(items: seq<Json>)
    decreases items, 0
  {
    items == [] || (Valid(items[0]) && ValidItems(items[1..]))
  }

  ghost predicate ValidFields(fields: seq<Field>)
    decreases fields, 0
  {
    fields == [] || (
      && Valid(fields[0].value)
      && !HasKey(fields[1..], fields[0].key)
      && ValidFields(fields[1..]))
  }

  predicate HasKey(fields: seq<Field>, key: string) {
    exists k :: 0 <= k < |fields| && fields[k].key == key
  }

  // ----- what a value means: object key order does not count, array order does -----

  datatype Value =
    | VNull
    | VBool(b: bool)
    | VNum(token: string)
    | VStr(s: string)
    | VArr(items: seq<Value>)
    | VObj(fields: map<string, Value>)

  function Meaning(v: Json): Value
    decreases v, 1
  {
    match v
    case JNull => VNull
    case JBool(b) => VBool(b)
    case JNum(token) => VNum(token)
    case JStr(s) => VStr(s)
    case JArr(items) => VArr(Meanings(items))
    case JObj(fields) => VObj(FieldMeanings(fields))
  }

  function Meanings(items: seq<Json>): (r: seq<Value>)
    ensures |r| == |items|
    decreases items, 0
  {
    if items == [] then [] else [Meaning(items[0])] + Meanings(items[1..])
  }

  function FieldMeanings(fields: seq<Field>): map<string, Value>
    decreases fields, 0
  {
    if fields == [] then map[] else FieldMeanings(fields[1..])[fields[0].key := Meaning(fields[0].value)]
  }

  // ----- sorting -----

  ghost predicate TotalOrder(leq: (string, string) -> bool) {
    && (forall a, b :: leq(a, b) || leq(b, a))
    && (forall a, b :: leq(a, b) && leq(b, a) ==> a == b)
    && (forall a, b, c :: leq(a, b) && leq(b, c) ==> leq(a, c))
  }

  function Insert(leq: (string, string) -> bool, f: Field, sorted: seq<Field>): seq<Field> {
    if sorted == [] || leq(f.key, sorted[0].key) then [f] + sorted
    else [sorted[0]] + Insert(leq, f, sorted[1..])
  }

  /** `sortValue`: object keys sorted at every depth, arrays in their own order. */
  function Sort(leq: (string, string) -> bool, v: Json): Json
    decreases v, 1
  {
    match v
    case JArr(items) => JArr(SortItems(leq, items))
    case JObj(fields) => JObj(SortFields(leq, fields))
    case _ => v
  }

  function SortItems(leq: (string, string) -> bool, items: seq<Json>): (r: seq<Json>)
    ensures |r| == |items|
    decreases items, 0
  {
    if items == [] then [] else [Sort(leq, items[0])] + SortItems(leq, items[1..])
  }

  function SortFields(leq: (string, string) -> bool, fields: seq<Field>): seq<Field>
    decreases fields, 0
  {
    if fields == [] then []
    else Insert(leq, Field(fields[0].key, Sort(leq, fields[0].value)), SortFields(leq, fields[1..]))
  }

  ghost predicate SortedDeep(leq: (string, string) -> bool, v: Json)
    decreases v, 1
  {
    match v
    case JArr(items) => SortedItems(leq, items)
    case JObj(fields) => SortedFields(leq, fields)
    case _ => true
  }

  ghost predicate SortedItems(leq: (string, string) -> bool, items: seq<Json>)
    decreases items, 0
  {
    items == [] || (SortedDeep(leq, items[0]) && SortedItems(leq, items[1..]))
  }

  ghost predicate SortedFields(leq: (string, string) -> bool, fields: seq<Field>)
    decreases fields, 0
  {
    fields == [] || (
      && SortedDeep(leq, fields[0].value)
      && LeastOf(leq, fields[0].key, fields[1..])
      && SortedFields(leq, fields[1..]))
  }

  /** `key` comes strictly before every key of `fields`. */
  ghost predicate LeastOf(leq: (string, string) -> bool, key: string, fields: seq<Field>) {
    forall k :: 0 <= k < |fields| ==> leq(key, fields[k].key) && key != fields[k].key
  }

  lemma {:induction false} KeysOfMeaning(fields: seq<Field>, key: string)
    ensures key in FieldMeanings(fields) <==> HasKey(fields, key)
    decreases |fields|
  {
    if fields != [] {
      KeysOfMeaning(fields[1..], key);
      HasKeyCons(fields[0], fields[1..], key);
      assert fields == [fields[0]] + fields[1..];
    }
  }

  lemma HasKeyCons(f: Field, rest: seq<Field>, key: string)
    ensures HasKey([f] + rest, key) <==> f.key == key || HasKey(rest, key)
  {
    var all := [f] + rest;
    if HasKey(rest, key) {
      var k :| 0 <= k < |rest| && rest[k].key == key;
      assert all[k + 1].key == key;
    }
    if f.key == key {
      assert all[0].key == key;
    }
  }

  lemma {:induction false} InsertKeys(leq: (string, string) -> bool, f: Field, s: seq<Field>, key: string)
    ensures HasKey(Insert(leq, f, s), key) <==> f.key == key || HasKey(s, key)
    decreases |s|
  {
    hide HasKey;
    HasKeyCons(f, s, key);
    if s != [] && !leq(f.key, s[0].key) {
      InsertKeys(leq, f, s[1..], key);
      HasKeyCons(s[0], Insert(leq, f, s[1..]), key);
      HasKeyCons(s[0], s[1..], key);
      assert s == [s[0]] + s[1..];
    }
  }

  lemma LeastOfMeans(leq: (string, string) -> bool, key: string, fields: seq<Field>)
    ensures LeastOf(leq, key, fields) <==> forall q :: HasKey(fields, q) ==> leq(key, q) && key != q
  {
    if forall q :: HasKey(fields, q) ==> leq(key, q) && key != q {
      forall k | 0 <= k < |fields|
        ensures leq(key, fields[k].key) && key != fields[k].key
      {
        assert HasKey(fields, fields[k].key);
      }
    }
  }

  /** Inserting a new key keeps the fields sorted and adds exactly that field. */
  lemma {:induction false} InsertSorts(leq: (string, string) -> bool, f: Field, s: seq<Field>)
    requires TotalOrder(leq) && SortedFields(leq, s) && SortedDeep(leq, f.value) && !HasKey(s, f.key)
    ensures SortedFields(leq, Insert(leq, f, s))
    ensures FieldMeanings(Insert(leq, f, s)) == FieldMeanings(s)[f.key := Meaning(f.value)]
    decreases |s|
  {
    hide SortedDeep, Meaning;
    var r := Insert(leq, f, s);
    if s == [] || leq(f.key, s[0].key) {
      assert r[0] == f && r[1..] == s;
      LeastOfMeans(leq, f.key, s);
      forall q | HasKey(s, q)
        ensures leq(f.key, q) && f.key != q
      {
        HasKeyCons(s[0], s[1..], q);
        assert s == [s[0]] + s[1..];
        LeastOfMeans(leq, s[0].key, s[1..]);
        assert leq(s[0].key, q) by { assert leq(q, q); }
      }
    } else {
      assert s == [s[0]] + s[1..];
      HasKeyCons(s[0], s[1..], f.key);
      InsertSorts(leq, f, s[1..]);
      assert r[0] == s[0] && r[1..] == Insert(leq, f, s[1..]);
      LeastOfMeans(leq, s[0].key, s[1..]);
      LeastOfMeans(leq, s[0].key, r[1..]);
      forall q | HasKey(r[1..], q)
        ensures leq(s[0].key, q) && s[0].key != q
      {
        InsertKeys(leq, f, s[1..], q);
      }
    }
  }

  /** Sorting keeps a value valid and keeps its meaning. */
  lemma {:induction false} SortKeepsMeaning(leq: (string, string) -> bool, v: Json)
    requires TotalOrder(leq) && Valid(v)
    ensures SortedDeep(leq, Sort(leq, v)) && Meaning(Sort(leq, v)) == Meaning(v)
    decreases v, 1
  {
    match v
    case JArr(items) => SortItemsKeepsMeaning(leq, items);
    case JObj(fields) => SortFieldsKeepsMeaning(leq, fields);
    case _ =>
  }

  lemma {:induction false} SortItemsKeepsMeaning(leq: (string, string) -> bool, items: seq<Json>)
    requires TotalOrder(leq) && ValidItems(items)
    ensures SortedItems(leq, SortItems(leq, items)) && Meanings(SortItems(leq, items)) == Meanings(items)
    decreases items, 0
  {
    if items != [] {
      SortKeepsMeaning(leq, items[0]);
      SortItemsKeepsMeaning(leq, items[1..]);
      assert SortItems(leq, items)[1..] == SortItems(leq, items[1..]);
    }
  }

  lemma {:induction false} SortFieldsKeepsMeaning(leq: (string, string) -> bool, fields: seq<Field>)
    requires TotalOrder(leq) && ValidFields(fields)
    ensures SortedFields(leq, SortFields(leq, fields)) && FieldMeanings(SortFields(leq, fields)) == FieldMeanings(fields)
    decreases fields, 0
  {
    if fields != [] {
      var f, rest := fields[0], SortFields(leq, fields[1..]);
      SortKeepsMeaning(leq, f.value);
      SortFieldsKeepsMeaning(leq, fields[1..]);
      KeysOfMeaning(fields[1..], f.key);
      KeysOfMeaning(rest, f.key);
      InsertSorts(leq, Field(f.key, Sort(leq, f.value)), rest);
    }
  }

  /** Sorting keeps a value valid. */
  lemma {:induction false} SortKeepsValid(leq: (string, string) -> bool, v: Json)
    requires Valid(v)
    ensures Valid(Sort(leq, v))
    decreases v, 1
  {
    match v
    case JArr(items) => SortItemsKeepsValid(leq, items);
    case JObj(fields) => SortFieldsKeepsValid(leq, fields);
    case _ =>
  }

  lemma {:induction false} SortItemsKeepsValid(leq: (string, string) -> bool, items: seq<Json>)
    requires ValidItems(items)
    ensures ValidItems(SortItems(leq, items))
    decreases items, 0
  {
    if items != [] {
      SortKeepsValid(leq, items[0]);
      SortItemsKeepsValid(leq, items[1..]);
      assert SortItems(leq, items)[1..] == SortItems(leq, items[1..]);
    }
  }

  lemma {:induction false} SortFieldsKeepsValid(leq: (string, string) -> bool, fields: seq<Field>)
    requires ValidFields(fields)
    ensures ValidFields(SortFields(leq, fields))
    ensures forall key :: HasKey(SortFields(leq, fields), key) <==> HasKey(fields, key)
    decreases fields, 0
  {
    if fields != [] {
      var f, rest := Field(fields[0].key, Sort(leq, fields[0].value)), SortFields(leq, fields[1..]);
      SortKeepsValid(leq, fields[0].value);
      SortFieldsKeepsValid(leq, fields[1..]);
      InsertKeepsValid(leq, f, rest);
      forall key
        ensures HasKey(SortFields(leq, fields), key) <==> HasKey(fields, key)
      {
        InsertKeys(leq, f, rest, key);
        HasKeyCons(fields[0], fields[1..], key);
        assert fields == [fields[0]] + fields[1..];
      }
    }
  }

  lemma {:induction false} InsertKeepsValid(leq: (string, string) -> bool, f: Field, s: seq<Field>)
    requires ValidFields(s) && Valid(f.value) && !HasKey(s, f.key)
    ensures ValidFields(Insert(leq, f, s))
    decreases |s|
  {
    var r := Insert(leq, f, s);
    if s == [] || leq(f.key, s[0].key) {
      assert r[1..] == s;
    } else {
      assert s == [s[0]] + s[1..];
      HasKeyCons(s[0], s[1..], f.key);
      InsertKeepsValid(leq, f, s[1..]);
      InsertKeys(leq, f, s[1..], s[0].key);
      assert r[1..] == Insert(leq, f, s[1..]);
    }
  }

  /** A sorted value is determined by its meaning. */
  lemma {:induction false} SortedIsUnique(leq: (string, string) -> bool, v: Json, w: Json)
    requires TotalOrder(leq) && SortedDeep(leq, v) && SortedDeep(leq, w) && Meaning(v) == Meaning(w)
    ensures v == w
    decreases v, 1
  {
    match v
    case JArr(items) => SortedItemsUnique(leq, items, w.items);
    case JObj(fields) => SortedFieldsUnique(leq, fields, w.fields);
    case _ =>
  }

  lemma {:induction false} SortedItemsUnique(leq: (string, string) -> bool, a: seq<Json>, b: seq<Json>)
    requires TotalOrder(leq) && SortedItems(leq, a) && SortedItems(leq, b) && Meanings(a) == Meanings(b)
    ensures a == b
    decreases a, 0
  {
    assert |Meanings(a)| == |Meanings(b)|;
    if a != [] {
      assert Meanings(a)[0] == Meaning(a[0]) && Meanings(b)[0] == Meaning(b[0]);
      assert Meanings(a)[1..] == Meanings(a[1..]) && Meanings(b)[1..] == Meanings(b[1..]);
      SortedIsUnique(leq, a[0], b[0]);
      SortedItemsUnique(leq, a[1..], b[1..]);
      assert a == [a[0]] + a[1..] && b == [b[0]] + b[1..];
    }
  }

  /** In sorted fields the first key is the least key of the meaning, and dropping it drops that field. */
  lemma {:induction false} FirstField(leq: (string, string) -> bool, a: seq<Field>)
    requires TotalOrder(leq) && SortedFields(leq, a) && a != []
    ensures a[0].key in FieldMeanings(a) && FieldMeanings(a)[a[0].key] == Meaning(a[0].value)
    ensures forall q :: q in FieldMeanings(a) ==> leq(a[0].key, q)
    ensures FieldMeanings(a[1..]) == FieldMeanings(a) - {a[0].key}
  {
    KeysOfMeaning(a[1..], a[0].key);
    LeastOfMeans(leq, a[0].key, a[1..]);
    forall q | q in FieldMeanings(a)
      ensures leq(a[0].key, q)
    {
      KeysOfMeaning(a[1..], q);
      assert leq(q, q);
    }
  }

  lemma {:induction false} EmptyMeaning(a: seq<Field>)
    ensures FieldMeanings(a) == map[] <==> a == []
  {
    assert a != [] ==> a[0].key in FieldMeanings(a);
  }

  lemma {:induction false} SortedFieldsUnique(leq: (string, string) -> bool, a: seq<Field>, b: seq<Field>)
    requires TotalOrder(leq) && SortedFields(leq, a) && SortedFields(leq, b) && FieldMeanings(a) == FieldMeanings(b)
    ensures a == b
    decreases a, 0
  {
    EmptyMeaning(a);
    EmptyMeaning(b);
    if a != [] {
      FirstField(leq, a);
      FirstField(leq, b);
      assert a[0].key == b[0].key;
      SortedIsUnique(leq, a[0].value, b[0].value);
      SortedFieldsUnique(leq, a[1..], b[1..]);
      assert a == [a[0]] + a[1..] && b == [b[0]] + b[1..];
    }
  }
}
