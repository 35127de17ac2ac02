/** JSON.stringify on the model's values, and why no two values print the same. */
module JsonPrinting {
  import opened CanonicalJson

  // ----- strings -----

  function HexDigit(n: int): char
    requires 0 <= n < 16
  {
    if n < 10 then '0' + n as char else 'a' + (n - 10) as char
  }

  /** How one character is printed inside quotes. */
  function Escape(c: char): (r: string)
    ensures r != ""
  {
    if c == '"' then ['\\', '"']
    else if c == '\\' then ['\\', '\\']
    else if c as int == 8 then ['\\', 'b']
    else if c as int == 9 then ['\\', 't']
    else if c as int == 10 then ['\\', 'n']
    else if c as int == 12 then ['\\', 'f']
    else if c as int == 13 then ['\\', 'r']
    else if c as int < 32 then ['\\', 'u', '0', '0', HexDigit(c as int / 16), HexDigit(c as int % 16)]
    else [c]
  }

  function EscapeAll(s: string): string {
    if s == "" then "" else Escape(s[0]) + EscapeAll(s[1..])
  }

  function Quote(s: string): string {
    ['"'] + EscapeAll(s) + ['"']
  }

  // ----- values -----

  function Print(v: Json): string
    decreases v, 2
  {
    match v
    case JNull => "null"
    case JBool(b) => if b then "true" else "false"
    case JNum(token) => token
    case JStr(s) => Quote(s)
    case JArr(items) => ['['] + PrintArray(items)
    case JObj(fields) => ['{'] + PrintObject(fields)
  }

  function PrintArray(items: seq<Json>): string
    decreases items, 1
  {
    if items == [] then [']'] else Print(items[0]) + PrintItems(items[1..])
  }

  function PrintObject(fields: seq<Field>): string
    decreases fields, 1
  {
    if fields == [] then ['}'] else PrintField(fields[0]) + PrintFields(fields[1..])
  }

  /** The items after the first, and the closing bracket. */
  function PrintItems(items: seq<Json>): string
    decreases items, 0
  {
    if items == [] then [']'] else [','] + (Print(items[0]) + PrintItems(items[1..]))
  }

  function PrintField(f: Field): string
    decreases f, 3
  {
    Quote(f.key) + ([':'] + Print(f.value))
  }

  function PrintFields(fields: seq<Field>): string
    decreases fields, 0
  {
    if fields == [] then ['}'] else [','] + (PrintField(fields[0]) + PrintFields(fields[1..]))
  }

  // ----- reading: the grammar of RFC 8259, without the white space it allows between tokens -----

  datatype Reading<+T> = Failed | Got(value: T, rest: string)

  /** The value of a hexadecimal digit, or -1. */
  function HexValue(c: char): int {
    if '0' <= c <= '9' then c as int - '0' as int
    else if 'a' <= c <= 'f' then c as int - 'a' as int + 10
    else if 'A' <= c <= 'F' then c as int - 'A' as int + 10
    else -1
  }

  /** Four hexadecimal digits; surrogates are not part of this model. */
  function ReadHex(t: string): Reading<char> {
    if |t| < 4 || HexValue(t[0]) < 0 || HexValue(t[1]) < 0 || HexValue(t[2]) < 0 || HexValue(t[3]) < 0 then Failed
    else
      var n := HexValue(t[0]) * 4096 + HexValue(t[1]) * 256 + HexValue(t[2]) * 16 + HexValue(t[3]);
      if 0 <= n < 0xD800 || 0xE000 <= n < 0x1_0000 then Got(n as char, t[4..]) else Failed
  }

  /** One character inside quotes: section 7. */
  function ReadChar(t: string): (r: Reading<char>)
    ensures r.Got? ==> |r.rest| < |t|
  {
    if t == "" || t[0] == '"' || t[0] as int < 32 then Failed
    else if t[0] != '\\' then Got(t[0], t[1..])
    else if |t| < 2 then Failed
    else
      match t[1]
      case '"' => Got('"', t[2..])
      case '\\' => Got('\\', t[2..])
      case '/' => Got('/', t[2..])
      case 'b' => Got(8 as char, t[2..])
      case 'f' => Got(12 as char, t[2..])
      case 'n' => Got(10 as char, t[2..])
      case 'r' => Got(13 as char, t[2..])
      case 't' => Got(9 as char, t[2..])
      case 'u' => ReadHex(t[2..])
      case _ => Failed
  }

  /** The rest of a string whose opening quote has been read. */
  function ReadString(t: string): (r: Reading<string>)
    ensures r.Got? ==> |r.rest| < |t|
    decreases |t|
  {
    if t == "" then Failed
    else if t[0] == '"' then Got("", t[1..])
    else
      match ReadChar(t)
      case Failed => Failed
      case Got(c, t1) =>
        match ReadString(t1)
        case Failed => Failed
        case Got(s, t2) => Got([c] + s, t2)
  }

  /** How many number characters the text begins with. */
  function NumberLength(t: string): (n: nat)
    ensures n <= |t|
  {
    if t == "" || !NumChar(t[0]) then 0 else 1 + NumberLength(t[1..])
  }

  /** A value: section 3. A number is its token. */
  function ReadValue(t: string): (r: Reading<Json>)
    ensures r.Got? ==> |r.rest| < |t|
    decreases |t|, 1
  {
    if t == "" then Failed
    else if t[0] == '"' then
      match ReadString(t[1..])
      case Failed => Failed
      case Got(s, t1) => Got(JStr(s), t1)
    else if t[0] == '[' then
      if |t| > 1 && t[1] == ']' then Got(JArr([]), t[2..])
      else
        match ReadItems(t[1..])
        case Failed => Failed
        case Got(items, t1) => Got(JArr(items), t1)
    else if t[0] == '{' then
      if |t| > 1 && t[1] == '}' then Got(JObj([]), t[2..])
      else
        match ReadFields(t[1..])
        case Failed => Failed
        case Got(fields, t1) => Got(JObj(fields), t1)
    else if t[0] == 'n' then (if "null" <= t then Got(JNull, t[4..]) else Failed)
    else if t[0] == 't' then (if "true" <= t then Got(JBool(true), t[4..]) else Failed)
    else if t[0] == 'f' then (if "false" <= t then Got(JBool(false), t[5..]) else Failed)
    else
      var n := NumberLength(t);
      if ValidNumber(t[..n]) then Got(JNum(t[..n]), t[n..]) else Failed
  }

  /** One or more values, and the closing bracket: section 5. */
  function ReadItems(t: string): (r: Reading<seq<Json>>)
    ensures r.Got? ==> |r.rest| < |t|
    decreases |t|, 2
  {
    match ReadValue(t)
    case Failed => Failed
    case Got(v, t1) =>
      if t1 != "" && t1[0] == ']' then Got([v], t1[1..])
      else if t1 != "" && t1[0] == ',' then
        match ReadItems(t1[1..])
        case Failed => Failed
        case Got(items, t2) => Got([v] + items, t2)
      else Failed
  }

  /** A name and its value: section 4. */
  function ReadField(t: string): (r: Reading<Field>)
    ensures r.Got? ==> |r.rest| < |t|
    decreases |t|, 2
  {
    if t == "" || t[0] != '"' then Failed
    else
      match ReadString(t[1..])
      case Failed => Failed
      case Got(key, t1) =>
        if t1 == "" || t1[0] != ':' then Failed
        else
          match ReadValue(t1[1..])
          case Failed => Failed
          case Got(v, t2) => Got(Field(key, v), t2)
  }

  /** One or more fields, and the closing brace. */
  function ReadFields(t: string): (r: Reading<seq<Field>>)
    ensures r.Got? ==> |r.rest| < |t|
    decreases |t|, 3
  {
    match ReadField(t)
    case Failed => Failed
    case Got(f, t1) =>
      if t1 != "" && t1[0] == '}' then Got([f], t1[1..])
      else if t1 != "" && t1[0] == ',' then
        match ReadFields(t1[1..])
        case Failed => Failed
        case Got(fields, t2) => Got([f] + fields, t2)
      else Failed
  }

  // ----- what is printed is read back -----

  lemma ReadsHex(n: int, x: string)
    requires 0 <= n < 32
    ensures ReadHex(['0', '0', HexDigit(n / 16), HexDigit(n % 16)] + x) == Got(n as char, x)
  {
    var t := ['0', '0', HexDigit(n / 16), HexDigit(n % 16)] + x;
    assert HexValue(HexDigit(n / 16)) == n / 16 && HexValue(HexDigit(n % 16)) == n % 16;
    assert t[4..] == x;
  }

  lemma ReadsChar(c: char, x: string)
    ensures ReadChar(Escape(c) + x) == Got(c, x)
    ensures (Escape(c) + x)[0] != '"'
  {
    var t := Escape(c) + x;
    hide ReadHex;
    if c as int < 32 && |Escape(c)| == 6 {
      hide HexDigit;
      assert t[2..] == ['0', '0', HexDigit(c as int / 16), HexDigit(c as int % 16)] + x;
      ReadsHex(c as int, x);
    } else {
      assert t[|Escape(c)|..] == x;
    }
  }

  lemma {:induction false} ReadsString(s: string, x: string)
    ensures ReadString(EscapeAll(s) + (['"'] + x)) == Got(s, x)
    decreases |s|
  {
    var t := EscapeAll(s) + (['"'] + x);
    if s == "" {
      assert t == ['"'] + x && t[1..] == x;
    } else {
      hide Escape, ReadChar;
      var t1 := EscapeAll(s[1..]) + (['"'] + x);
      assert t == Escape(s[0]) + t1;
      ReadsChar(s[0], t1);
      ReadsString(s[1..], x);
      assert s == [s[0]] + s[1..];
    }
  }

  lemma QuoteText(s: string, x: string)
    ensures |Quote(s) + x| > 0 && (Quote(s) + x)[0] == '"' && (Quote(s) + x)[1..] == EscapeAll(s) + (['"'] + x)
  {
    hide EscapeAll;
    assert Quote(s) + x == ['"'] + (EscapeAll(s) + (['"'] + x));
  }

  /** Text that may follow a value: the end, a comma or a closing bracket. */
  predicate Follow(x: string) {
    x == "" || x[0] == ',' || x[0] == ']' || x[0] == '}'
  }

  lemma {:induction false} NumberEnds(token: string, x: string)
    requires forall k :: 0 <= k < |token| ==> NumChar(token[k])
    requires Follow(x)
    ensures NumberLength(token + x) == |token|
  {
    if token == "" {
      assert token + x == x;
    } else {
      assert (token + x)[1..] == token[1..] + x;
      NumberEnds(token[1..], x);
    }
  }

  lemma ReadsNumber(token: string, x: string)
    requires ValidNumber(token) && Follow(x)
    ensures ReadValue(token + x) == Got(JNum(token), x)
  {
    var t := token + x;
    NumberEnds(token, x);
    assert t[0] == token[0];
    assert t[..|token|] == token && t[|token|..] == x;
    hide NumberLength, ReadString;
  }

  lemma ReadsLiteral(v: Json, x: string)
    requires v.JNull? || v.JBool?
    ensures ReadValue(Print(v) + x) == Got(v, x)
  {
    var t := Print(v) + x;
    assert t[|Print(v)|..] == x;
    assert t[0] == Print(v)[0];
  }

  lemma ReadsQuoted(s: string, x: string)
    ensures ReadValue(Quote(s) + x) == Got(JStr(s), x)
  {
    hide Quote, EscapeAll, ReadString;
    QuoteText(s, x);
    ReadsString(s, x);
  }

  lemma RestFollows(items: seq<Json>, x: string)
    ensures Follow(PrintItems(items) + x)
  {
  }

  lemma FieldsFollow(fields: seq<Field>, x: string)
    ensures Follow(PrintFields(fields) + x)
  {
  }

  /** No value begins with a closing bracket. */
  lemma ValueHead(v: Json)
    requires Valid(v)
    ensures Print(v) != "" && Print(v)[0] != ']'
  {
  }

  /** Every valid value's text, whatever may follow it, is read back as that value. */
  lemma {:induction false} ReadsBack(v: Json, x: string)
    requires Valid(v) && Follow(x)
    ensures ReadValue(Print(v) + x) == Got(v, x)
    decreases v, 1
  {
    match v
    case JNum(token) => ReadsNumber(token, x);
    case JStr(s) => ReadsQuoted(s, x);
    case JArr(items) =>
      if items != [] {
        ReadsItems(items, x);
      }
      ReadsBracket(items, x);
    case JObj(fields) =>
      if fields != [] {
        ReadsFields(fields, x);
      }
      ReadsBrace(fields, x);
    case _ => ReadsLiteral(v, x);
  }

  lemma ReadsBracket(items: seq<Json>, x: string)
    requires ValidItems(items)
    requires items != [] ==> ReadItems(PrintArray(items) + x) == Got(items, x)
    ensures ReadValue(Print(JArr(items)) + x) == Got(JArr(items), x)
  {
    hide ReadItems, ReadFields, ReadString, NumberLength, PrintItems, Valid;
    var t := Print(JArr(items)) + x;
    assert t == ['['] + (PrintArray(items) + x);
    assert t[1..] == PrintArray(items) + x;
    if items == [] {
      assert t == "[]" + x && t[2..] == x;
    } else {
      ArrayHead(items, x);
      assert t[1] == (PrintArray(items) + x)[0];
    }
  }

  lemma ArrayHead(items: seq<Json>, x: string)
    requires items != [] && Valid(items[0])
    ensures |PrintArray(items) + x| > 0 && (PrintArray(items) + x)[0] != ']'
  {
    hide Print, PrintItems, Valid;
    ValueHead(items[0]);
    assert (PrintArray(items) + x)[0] == Print(items[0])[0];
  }

  lemma ReadsBrace(fields: seq<Field>, x: string)
    requires fields != [] ==> ReadFields(PrintObject(fields) + x) == Got(fields, x)
    ensures ReadValue(Print(JObj(fields)) + x) == Got(JObj(fields), x)
  {
    hide ReadItems, ReadFields, ReadString, NumberLength, PrintFields, PrintField;
    var t := Print(JObj(fields)) + x;
    assert t == ['{'] + (PrintObject(fields) + x);
    assert t[1..] == PrintObject(fields) + x;
    if fields == [] {
      assert t == "{}" + x && t[2..] == x;
    } else {
      FieldHead(fields, x);
      assert t[1] == (PrintObject(fields) + x)[0];
    }
  }

  lemma FieldHead(fields: seq<Field>, x: string)
    requires fields != []
    ensures |PrintObject(fields) + x| > 0 && (PrintObject(fields) + x)[0] == '"'
  {
    hide Print, PrintFields, EscapeAll;
    assert PrintField(fields[0])[0] == '"';
    assert (PrintObject(fields) + x)[0] == PrintField(fields[0])[0];
  }

  /** What follows the first item: the closing bracket, or a comma and the others. */
  lemma RestText(rest: seq<Json>, x: string)
    ensures var t := PrintItems(rest) + x;
      |t| > 0 && t[0] == (if rest == [] then ']' else ',') && t[1..] == if rest == [] then x else PrintArray(rest) + x
  {
    hide Print;
    if rest == [] {
      assert PrintItems(rest) + x == [']'] + x;
    } else {
      assert PrintItems(rest) + x == [','] + (PrintArray(rest) + x);
    }
  }

  lemma {:induction false} ReadsItems(items: seq<Json>, x: string)
    requires items != [] && ValidItems(items)
    ensures ReadItems(PrintArray(items) + x) == Got(items, x)
    decreases items, 0
  {
    hide Print, PrintItems, Valid, ReadValue;
    var rest := items[1..];
    assert PrintArray(items) + x == Print(items[0]) + (PrintItems(rest) + x);
    RestFollows(rest, x);
    ReadsBack(items[0], PrintItems(rest) + x);
    RestText(rest, x);
    assert items == [items[0]] + rest;
    if rest == [] {
      assert items == [items[0]];
    } else {
      ReadsItems(rest, x);
    }
  }

  lemma {:induction false} ReadsField(f: Field, x: string)
    requires Valid(f.value) && Follow(x)
    ensures ReadField(PrintField(f) + x) == Got(f, x)
    decreases f, 3
  {
    hide Print, Valid, Quote, EscapeAll, ReadString, ReadValue;
    var t1 := [':'] + (Print(f.value) + x);
    assert PrintField(f) + x == Quote(f.key) + t1;
    QuoteText(f.key, t1);
    ReadsString(f.key, t1);
    assert t1[0] == ':' && t1[1..] == Print(f.value) + x;
    ReadsBack(f.value, x);
  }

  lemma RestFieldsText(rest: seq<Field>, x: string)
    ensures var t := PrintFields(rest) + x;
      |t| > 0 && t[0] == (if rest == [] then '}' else ',') && t[1..] == if rest == [] then x else PrintObject(rest) + x
  {
    hide PrintField;
    if rest == [] {
      assert PrintFields(rest) + x == ['}'] + x;
    } else {
      assert PrintFields(rest) + x == [','] + (PrintObject(rest) + x);
    }
  }

  lemma {:induction false} ReadsFields(fields: seq<Field>, x: string)
    requires fields != [] && ValidFields(fields)
    ensures ReadFields(PrintObject(fields) + x) == Got(fields, x)
    decreases fields, 0
  {
    hide PrintField, PrintFields, Valid, ReadField, HasKey;
    var rest := fields[1..];
    assert PrintObject(fields) + x == PrintField(fields[0]) + (PrintFields(rest) + x);
    FieldsFollow(rest, x);
    ReadsField(fields[0], PrintFields(rest) + x);
    RestFieldsText(rest, x);
    assert fields == [fields[0]] + rest;
    if rest == [] {
      assert fields == [fields[0]];
    } else {
      ReadsFields(rest, x);
    }
  }

  /** No valid value's text, up to what may follow it, is also another's: printing the JSON grammar is injective. */
  lemma {:induction false} PrintIsUnambiguous(v: Json, w: Json, x: string, y: string)
    requires Valid(v) && Valid(w) && Follow(x) && Follow(y) && Print(v) + x == Print(w) + y
    ensures v == w && x == y
  {
    hide Print, Valid, ReadValue;
    ReadsBack(v, x);
    ReadsBack(w, y);
  }

  /** Hence two valid values print the same only if they are the same. */
  lemma {:induction false} PrintIsInjective(v: Json, w: Json)
    requires Valid(v) && Valid(w) && Print(v) == Print(w)
    ensures v == w
  {
    hide Print, Valid;
    PrintIsUnambiguous(v, w, "", "");
  }

  // ----- printed text fits on one line -----

  /** No control character: in particular no newline and no carriage return. */
  predicate Plain(s: string) {
    forall k :: 0 <= k < |s| ==> s[k] as int >= 32
  }

  lemma EscapeIsPlain(c: char)
    ensures Plain(Escape(c))
  {
  }

  lemma {:induction false} EscapeAllIsPlain(s: string)
    ensures Plain(EscapeAll(s))
  {
    hide Escape;
    if s != "" {
      EscapeIsPlain(s[0]);
      EscapeAllIsPlain(s[1..]);
    }
  }

  lemma {:induction false} PrintIsPlain(v: Json)
    requires Valid(v)
    ensures Plain(Print(v))
    decreases v, 2
  {
    match v
    case JStr(s) => EscapeAllIsPlain(s);
    case JArr(items) =>
      if items != [] {
        PrintIsPlain(items[0]);
        ItemsArePlain(items[1..]);
      }
    case JObj(fields) =>
      if fields != [] {
        FieldIsPlain(fields[0]);
        FieldsArePlain(fields[1..]);
      }
    case _ =>
  }

  lemma {:induction false} ItemsArePlain(items: seq<Json>)
    requires ValidItems(items)
    ensures Plain(PrintItems(items))
    decreases items, 0
  {
    hide Print;
    if items != [] {
      PrintIsPlain(items[0]);
      ItemsArePlain(items[1..]);
    }
  }

  lemma {:induction false} FieldIsPlain(f: Field)
    requires Valid(f.value)
    ensures Plain(PrintField(f))
    decreases f, 3
  {
    hide Print;
    EscapeAllIsPlain(f.key);
    PrintIsPlain(f.value);
  }

  lemma {:induction false} FieldsArePlain(fields: seq<Field>)
    requires ValidFields(fields)
    ensures Plain(PrintFields(fields))
    decreases fields, 0
  {
    hide PrintField;
    if fields != [] {
      FieldIsPlain(fields[0]);
      FieldsArePlain(fields[1..]);
    }
  }
}
