/** Compact JSON as `serde_json::to_string` writes it (RFC 8259 section 7), on UTF-8 bytes, and a
    reader for that form. */
module Json {
  import opened Wrappers
  import opened Positional
  import opened Hexadecimal
  import opened Decimal

  type Bytes = seq<Byte>

  datatype Json =
    | Str(s: Bytes)
    | Num(n: nat)
    | Arr(items: seq<Json>)
    | Obj(fields: seq<Field>)

  datatype Field = Field(key: Bytes, value: Json)

  const QUOTE: Byte := 34
  const BACKSLASH: Byte := 92
  const COMMA: Byte := 44
  const COLON: Byte := 58
  const NEWLINE: Byte := 10

  // ---- writing ----

  function EscapeByte(b: Byte): (e: Bytes)
    ensures forall i :: 0 <= i < |e| ==> e[i] >= 32
  {
    if b == QUOTE then [BACKSLASH, QUOTE]
    else if b == BACKSLASH then [BACKSLASH, BACKSLASH]
    else if b == 8 then [BACKSLASH, 98]
    else if b == 9 then [BACKSLASH, 116]
    else if b == NEWLINE then [BACKSLASH, 110]
    else if b == 12 then [BACKSLASH, 102]
    else if b == 13 then [BACKSLASH, 114]
    else if b < 32 then [BACKSLASH, 117, 48, 48, LowerHex(b / 16), LowerHex(b % 16)]
    else [b]
  }

  function Escape(s: Bytes): Bytes {
    if s == [] then [] else EscapeByte(s[0]) + Escape(s[1..])
  }

  function Ascii(s: string): (b: Bytes)
    requires forall i :: 0 <= i < |s| ==> s[i] as int < 128
    ensures |b| == |s|
  {
    seq(|s|, i requires 0 <= i < |s| => s[i] as int)
  }

  function PrintStr(s: Bytes): Bytes {
    [QUOTE] + Escape(s) + [QUOTE]
  }

  function Print(v: Json): Bytes
    decreases v, 1
  {
    match v
    case Str(s) => PrintStr(s)
    case Num(n) => TextRoundTrip(n); Ascii(ToText(n))
    case Arr(items) => [91] + PrintItems(items) + [93]
    case Obj(fields) => [123] + PrintFields(fields) + [125]
  }

  function PrintItems(items: seq<Json>): Bytes
    decreases items, 0
  {
    if items == [] then [] else
      Print(items[0]) + if |items| == 1 then [] else [COMMA] + PrintItems(items[1..])
  }

  function PrintFields(fields: seq<Field>): Bytes
    decreases fields, 0
  {
    if fields == [] then [] else
      PrintStr(fields[0].key) + [COLON] + Print(fields[0].value)
      + if |fields| == 1 then [] else [COMMA] + PrintFields(fields[1..])
  }

  // ---- reading ----

  datatype Read<T> = Read(value: T, rest: Bytes)

  /** The string up to the closing quote; control characters must be escaped. */
  function ParseChars(t: Bytes): (r: Option<Read<Bytes>>)
    ensures r.Some? ==> |r.value.rest| < |t|
    decreases |t|
  {
    if t == [] || t[0] < 32 then None
    else if t[0] == QUOTE then Some(Read([], t[1..]))
    else if t[0] != BACKSLASH then Prepend(t[0], ParseChars(t[1..]))
    else if |t| < 2 then None
    else if t[1] == QUOTE || t[1] == BACKSLASH || t[1] == 47 then Prepend(t[1], ParseChars(t[2..]))
    else if t[1] == 98 then Prepend(8, ParseChars(t[2..]))
    else if t[1] == 116 then Prepend(9, ParseChars(t[2..]))
    else if t[1] == 110 then Prepend(NEWLINE, ParseChars(t[2..]))
    else if t[1] == 102 then Prepend(12, ParseChars(t[2..]))
    else if t[1] == 114 then Prepend(13, ParseChars(t[2..]))
    else if t[1] == 117 && |t| >= 6 && t[2] == 48 && t[3] == 48 then
      var h, l := NibbleOf(t[4]), NibbleOf(t[5]);
      if h.Some? && l.Some? && h.value < 8 && l.value < 16 then Prepend(h.value * 16 + l.value, ParseChars(t[6..]))
      else None
    else None
  }

  function Prepend(b: Byte, r: Option<Read<Bytes>>): Option<Read<Bytes>> {
    match r
    case None => None
    case Some(x) => Some(Read([b] + x.value, x.rest))
  }

  function ParseStr(t: Bytes): (r: Option<Read<Bytes>>)
    ensures r.Some? ==> |r.value.rest| < |t|
  {
    if t == [] || t[0] != QUOTE then None else ParseChars(t[1..])
  }

  predicate IsDigitByte(b: Byte) { 48 <= b <= 57 }

  /** The number of leading digits. */
  function DigitRun(t: Bytes): (n: nat)
    ensures n <= |t| && forall i :: 0 <= i < n ==> IsDigitByte(t[i])
    ensures n < |t| ==> !IsDigitByte(t[n])
  {
    if t != [] && IsDigitByte(t[0]) then 1 + DigitRun(t[1..]) else 0
  }

  function Chars(t: Bytes): (s: string)
    ensures |s| == |t|
  {
    seq(|t|, i requires 0 <= i < |t| => t[i] as char)
  }

  function ParseValue(t: Bytes): (r: Option<Read<Json>>)
    ensures r.Some? ==> |r.value.rest| < |t|
    decreases |t|, 2
  {
    if t == [] then None
    else if t[0] == QUOTE then
      match ParseStr(t) case None => None case Some(x) => Some(Read(Str(x.value), x.rest))
    else if IsDigitByte(t[0]) then
      var n := DigitRun(t);
      Some(Read(Num(FromText(Chars(t[..n]))), t[n..]))
    else if t[0] == 91 then
      if |t| > 1 && t[1] == 93 then Some(Read(Arr([]), t[2..])) else
        match ParseItems(t[1..]) case None => None case Some(x) => Some(Read(Arr(x.value), x.rest))
    else if t[0] == 123 then
      if |t| > 1 && t[1] == 125 then Some(Read(Obj([]), t[2..])) else
        match ParseFields(t[1..]) case None => None case Some(x) => Some(Read(Obj(x.value), x.rest))
    else None
  }

  function ParseItems(t: Bytes): (r: Option<Read<seq<Json>>>)
    ensures r.Some? ==> |r.value.rest| < |t|
    decreases |t|, 3
  {
    match ParseValue(t)
    case None => None
    case Some(x) =>
      if x.rest != [] && x.rest[0] == 93 then Some(Read([x.value], x.rest[1..]))
      else if x.rest != [] && x.rest[0] == COMMA then
        match ParseItems(x.rest[1..])
        case None => None
        case Some(y) => Some(Read([x.value] + y.value, y.rest))
      else None
  }

  function ParseFields(t: Bytes): (r: Option<Read<seq<Field>>>)
    ensures r.Some? ==> |r.value.rest| < |t|
    decreases |t|, 3
  {
    match ParseStr(t)
    case None => None
    case Some(k) =>
      if k.rest == [] || k.rest[0] != COLON then None else
        match ParseValue(k.rest[1..])
        case None => None
        case Some(x) =>
          var f := Field(k.value, x.value);
          if x.rest != [] && x.rest[0] == 125 then Some(Read([f], x.rest[1..]))
          else if x.rest != [] && x.rest[0] == COMMA then
            match ParseFields(x.rest[1..])
            case None => None
            case Some(y) => Some(Read([f] + y.value, y.rest))
          else None
  }

  /** `from_slice`: one value and nothing after it. */
  function Parse(t: Bytes): Option<Json> {
    match ParseValue(t)
    case None => None
    case Some(x) => if x.rest == [] then Some(x.value) else None
  }

  // ---- no raw control characters ----

  predicate Printable(t: Bytes) {
    forall i :: 0 <= i < |t| ==> t[i] >= 32
  }

  lemma {:induction false} EscapePrintable(s: Bytes)
    ensures Printable(Escape(s))
  {
    if s == [] {
    } else {
      EscapePrintable(s[1..]);
    }
  }

  lemma StrPrintable(s: Bytes)
    ensures Printable(PrintStr(s)) && Printable([COLON]) && Printable([COMMA]) && Printable([])
  {
    EscapePrintable(s);
  }

  lemma BothPrintable(a: Bytes, b: Bytes)
    requires Printable(a) && Printable(b)
    ensures Printable(a + b)
  {}

  lemma {:induction false} PrintPrintable(v: Json)
    ensures Printable(Print(v))
    decreases v, 1
  {
    match v
    case Str(s) => EscapePrintable(s);
    case Num(n) => TextRoundTrip(n);
    case Arr(items) => ItemsPrintable(items);
    case Obj(fields) => FieldsPrintable(fields);
  }

  lemma {:induction false} ItemsPrintable(items: seq<Json>)
    ensures Printable(PrintItems(items))
    decreases items, 0
  {
    if items == [] {
    } else {
      PrintPrintable(items[0]);
      if |items| > 1 { ItemsPrintable(items[1..]); }
    }
  }

  lemma {:induction false} FieldsPrintable(fields: seq<Field>)
    ensures Printable(PrintFields(fields))
    decreases fields, 0
  {
    if fields == [] {
    } else {
      var k, v := PrintStr(fields[0].key), Print(fields[0].value);
      var rest := if |fields| == 1 then [] else [COMMA] + PrintFields(fields[1..]);
      assert PrintFields(fields) == k + [COLON] + v + rest;
      hide PrintFields, Print, Printable;
      StrPrintable(fields[0].key);
      PrintPrintable(fields[0].value);
      BothPrintable(k, [COLON]);
      BothPrintable(k + [COLON], v);
      if |fields| > 1 {
        FieldsPrintable(fields[1..]);
        BothPrintable([COMMA], PrintFields(fields[1..]));
      }
      BothPrintable(k + [COLON] + v, rest);
    }
  }

  /** Whatever its strings hold, printed JSON has no raw newline. */
  lemma OneLine(v: Json)
    ensures NEWLINE !in Print(v)
  {
    PrintPrintable(v);
  }

  // ---- reading back ----

  lemma ParseEscaped(b: Byte, t: Bytes)
    ensures ParseChars(EscapeByte(b) + t) == Prepend(b, ParseChars(t))
  {
    var e := EscapeByte(b);
    var u := e + t;
    assert u[|e|..] == t;
  }

  lemma ClosingQuote(t: Bytes)
    ensures ParseChars([QUOTE] + t) == Some(Read([], t))
  {
    assert ([QUOTE] + t)[1..] == t;
  }

  lemma {:induction false} CharsBack(s: Bytes, t: Bytes)
    ensures ParseChars(Escape(s) + ([QUOTE] + t)) == Some(Read(s, t))
  {
    hide ParseChars, EscapeByte;
    if s == [] {
      ClosingQuote(t);
      assert Escape(s) + ([QUOTE] + t) == [QUOTE] + t;
    } else {
      CharsBack(s[1..], t);
      var rest := Escape(s[1..]) + ([QUOTE] + t);
      ParseEscaped(s[0], rest);
      assert Escape(s) + ([QUOTE] + t) == EscapeByte(s[0]) + rest;
      assert [s[0]] + s[1..] == s;
    }
  }

  lemma StrBack(s: Bytes, t: Bytes)
    ensures ParseStr(PrintStr(s) + t) == Some(Read(s, t))
  {
    CharsBack(s, t);
    assert (PrintStr(s) + t)[1..] == Escape(s) + ([QUOTE] + t);
  }

  lemma {:induction false} RunOf(d: Bytes, t: Bytes)
    requires forall i :: 0 <= i < |d| ==> IsDigitByte(d[i])
    requires t == [] || !IsDigitByte(t[0])
    ensures DigitRun(d + t) == |d|
  {
    if d == [] {
      assert d + t == t;
    } else {
      assert (d + t)[1..] == d[1..] + t;
      RunOf(d[1..], t);
    }
  }

  lemma NumBack(n: nat, t: Bytes)
    requires t == [] || !IsDigitByte(t[0])
    ensures ParseValue(Print(Num(n)) + t) == Some(Read(Num(n), t))
  {
    TextRoundTrip(n);
    var d := Ascii(ToText(n));
    RunOf(d, t);
    assert Print(Num(n)) == d;
    assert (d + t)[..|d|] == d && (d + t)[|d|..] == t;
    assert Chars(d) == ToText(n);
    assert IsDigitByte((d + t)[0]);
  }

  /** What may follow a printed value. */
  predicate Follows(t: Bytes) {
    t == [] || t[0] == COMMA || t[0] == 93 || t[0] == 125
  }

  lemma ArrBack(items: seq<Json>, t: Bytes)
    requires items != [] ==> ParseItems(PrintItems(items) + ([93] + t)) == Some(Read(items, t))
    ensures ParseValue(Print(Arr(items)) + t) == Some(Read(Arr(items), t))
  {
    hide ParseItems, PrintItems, ParseStr;
    var u := Print(Arr(items)) + t;
    if items == [] {
      assert PrintItems(items) == [] by { NoItems(); }
      assert u == [91, 93] + t;
      assert u[2..] == t;
    } else {
      assert u[1..] == PrintItems(items) + ([93] + t);
      ItemsStart(items);
      assert u[1] == PrintItems(items)[0];
    }
  }

  lemma NoItems()
    ensures PrintItems([]) == [] && PrintFields([]) == []
  {}

  lemma ObjBack(fields: seq<Field>, t: Bytes)
    requires fields != [] ==> ParseFields(PrintFields(fields) + ([125] + t)) == Some(Read(fields, t))
    ensures ParseValue(Print(Obj(fields)) + t) == Some(Read(Obj(fields), t))
  {
    hide ParseFields, PrintFields, ParseStr, ParseItems;
    var u := Print(Obj(fields)) + t;
    if fields == [] {
      assert PrintFields(fields) == [] by { NoItems(); }
      assert u == [123, 125] + t;
      assert u[2..] == t;
    } else {
      assert u[1..] == PrintFields(fields) + ([125] + t);
      FieldsStart(fields);
      assert u[1] == PrintFields(fields)[0];
    }
  }

  lemma {:induction false} ValueBack(v: Json, t: Bytes)
    requires Follows(t)
    ensures ParseValue(Print(v) + t) == Some(Read(v, t))
    decreases v, 1
  {
    match v {
      case Str(s) =>
        hide ParseItems, ParseFields, ParseStr, PrintStr;
        StrBack(s, t);
        StrStart(s, t);
      case Num(n) => NumBack(n, t);
      case Arr(items) =>
        hide ParseItems, ParseFields, ParseValue, Print;
        if items != [] { ItemsBack(items, t); }
        ArrBack(items, t);
      case Obj(fields) =>
        hide ParseItems, ParseFields, ParseValue, Print;
        if fields != [] { FieldsBack(fields, t); }
        ObjBack(fields, t);
    }
  }

  lemma StrStart(s: Bytes, t: Bytes)
    ensures (PrintStr(s) + t)[0] == QUOTE
  {}

  lemma ValueStart(v: Json)
    ensures Print(v) != [] && Print(v)[0] != 93
  {
    match v
    case Num(n) => TextRoundTrip(n);
    case _ =>
  }

  lemma ItemsStart(items: seq<Json>)
    requires items != []
    ensures PrintItems(items) != [] && PrintItems(items)[0] != 93
  {
    ValueStart(items[0]);
  }

  lemma FieldsStart(fields: seq<Field>)
    requires fields != []
    ensures PrintFields(fields) != [] && PrintFields(fields)[0] == QUOTE
  {}

  /** One item read, and the comma or bracket after it. */
  lemma ItemStep(v: Json, more: Bytes)
    requires ParseValue(Print(v) + more) == Some(Read(v, more))
    requires more != [] && (more[0] == 93 || more[0] == COMMA)
    ensures ParseItems(Print(v) + more) == if more[0] == 93 then Some(Read([v], more[1..])) else
      match ParseItems(more[1..]) case None => None case Some(y) => Some(Read([v] + y.value, y.rest))
  {
    hide ParseValue, Print;
  }

  lemma ItemsText(items: seq<Json>, t: Bytes)
    requires items != []
    ensures var more := if |items| == 1 then [93] + t else [COMMA] + (PrintItems(items[1..]) + ([93] + t));
            PrintItems(items) + ([93] + t) == Print(items[0]) + more
  {
    var v, e := Print(items[0]), [93] + t;
    var w := if |items| == 1 then [] else [COMMA] + PrintItems(items[1..]);
    assert PrintItems(items) == v + w;
    hide Print, PrintItems;
    Assoc(v, w, e);
    if |items| > 1 {
      Assoc([COMMA], PrintItems(items[1..]), e);
    } else {
      assert w + e == e;
    }
  }

  lemma {:induction false} ItemsBack(items: seq<Json>, t: Bytes)
    requires items != []
    ensures ParseItems(PrintItems(items) + ([93] + t)) == Some(Read(items, t))
    decreases items, 0
  {
    hide ParseValue, Print, ParseItems, PrintItems;
    var v := items[0];
    var more := if |items| == 1 then [93] + t else [COMMA] + (PrintItems(items[1..]) + ([93] + t));
    ItemsText(items, t);
    ValueBack(v, more);
    ItemStep(v, more);
    if |items| == 1 {
      assert more[1..] == t && [v] == items;
    } else {
      ItemsBack(items[1..], t);
      assert more[1..] == PrintItems(items[1..]) + ([93] + t);
      assert [v] + items[1..] == items;
    }
  }

  /** One field read, and the comma or brace after it. */
  lemma FieldStep(f: Field, more: Bytes, u: Bytes)
    requires u == PrintStr(f.key) + ([COLON] + (Print(f.value) + more))
    requires ParseStr(u) == Some(Read(f.key, [COLON] + (Print(f.value) + more)))
    requires ParseValue(Print(f.value) + more) == Some(Read(f.value, more))
    requires more != [] && (more[0] == 125 || more[0] == COMMA)
    ensures ParseFields(u) == if more[0] == 125 then Some(Read([f], more[1..])) else
      match ParseFields(more[1..]) case None => None case Some(y) => Some(Read([f] + y.value, y.rest))
  {
    hide ParseValue, Print, ParseStr, PrintStr;
    assert ([COLON] + (Print(f.value) + more))[1..] == Print(f.value) + more;
  }

  lemma Assoc(a: Bytes, b: Bytes, c: Bytes)
    ensures (a + b) + c == a + (b + c)
  {}

  lemma FieldsText(fields: seq<Field>, t: Bytes)
    requires fields != []
    ensures var more := if |fields| == 1 then [125] + t else [COMMA] + (PrintFields(fields[1..]) + ([125] + t));
            && PrintFields(fields) + ([125] + t)
            == PrintStr(fields[0].key) + ([COLON] + (Print(fields[0].value) + more))
  {
    var k, v, e := PrintStr(fields[0].key), Print(fields[0].value), [125] + t;
    var w := if |fields| == 1 then [] else [COMMA] + PrintFields(fields[1..]);
    assert PrintFields(fields) == k + [COLON] + v + w;
    hide Print, PrintStr, PrintFields;
    Assoc(k + [COLON] + v, w, e);
    Assoc(k + [COLON], v, w + e);
    Assoc(k, [COLON], v + (w + e));
    if |fields| > 1 {
      Assoc([COMMA], PrintFields(fields[1..]), e);
    } else {
      assert w + e == e;
    }
  }

  lemma {:induction false} FieldsBack(fields: seq<Field>, t: Bytes)
    requires fields != []
    ensures ParseFields(PrintFields(fields) + ([125] + t)) == Some(Read(fields, t))
    decreases fields, 0
  {
    hide ParseValue, Print, ParseStr, PrintStr, ParseFields, PrintFields;
    var f := fields[0];
    var more := if |fields| == 1 then [125] + t else [COMMA] + (PrintFields(fields[1..]) + ([125] + t));
    FieldsText(fields, t);
    ValueBack(f.value, more);
    StrBack(f.key, [COLON] + (Print(f.value) + more));
    FieldStep(f, more, PrintFields(fields) + ([125] + t));
    if |fields| == 1 {
      assert more[1..] == t && [f] == fields;
    } else {
      FieldsBack(fields[1..], t);
      assert more[1..] == PrintFields(fields[1..]) + ([125] + t);
      assert [f] + fields[1..] == fields;
    }
  }

  /** Reading printed JSON gives the value back. */
  lemma ParsePrint(v: Json)
    ensures Parse(Print(v)) == Some(v)
  {
    ValueBack(v, []);
    assert Print(v) + [] == Print(v);
  }
}
