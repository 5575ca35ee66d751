/** Canonical JSON: object keys in order, everything else as JSON writes it. */
module CanonicalJson {
  import opened Ordering

  /** Strings are their UTF-16 code units; a number is the text that JSON writes for it. */
  datatype Json =
    | Null
    | Bool(b: bool)
    | Number(text: Text)
    | String(s: Text)
    | Array(items: seq<Json>)
    | Object(fields: seq<Field>)
  datatype Field = Field(key: Text, value: Json)

  const QUOTE := '"' as int
  const SLASH := '\\' as int
  const COMMA := ',' as int
  const COLON := ':' as int
  const OPEN := '{' as int
  const CLOSE := '}' as int
  const LEFT := '[' as int
  const RIGHT := ']' as int

  // ----- values -----

  predicate Unit(c: int) {
    0 <= c < 0x10000
  }

  predicate NumberUnit(c: int) {
    '0' as int <= c <= '9' as int || c in {'-' as int, '+' as int, '.' as int, 'e' as int, 'E' as int}
  }

  predicate NumberText(t: Text) {
    && t != [] && (t[0] == '-' as int || '0' as int <= t[0] <= '9' as int)
    && forall i :: 0 <= i < |t| ==> NumberUnit(t[i])
  }

  predicate Units(s: Text) {
    forall i :: 0 <= i < |s| ==> Unit(s[i])
  }

  function FieldKey(f: Field): Text {
    f.key
  }

  /** A value that JSON can carry: an object has each key once. */
  ghost predicate Legal(v: Json)
    decreases v
  {
    match v
    case Null => true
    case Bool(_) => true
    case Number(t) => NumberText(t)
    case String(s) => Units(s)
    case Array(items) => forall i :: 0 <= i < |items| ==> Legal(items[i])
    case Object(fields) =>
      && (forall i :: 0 <= i < |fields| ==> Units(fields[i].key) && Legal(fields[i].value))
      && Keyed(fields, FieldKey)
  }

  /** Equality up to the order of keys. */
  ghost predicate Same(v: Json, w: Json)
    decreases v
  {
    match v
    case Null => w.Null?
    case Bool(b) => w.Bool? && w.b == b
    case Number(t) => w.Number? && w.text == t
    case String(s) => w.String? && w.s == s
    case Array(items) =>
      w.Array? && |w.items| == |items| && forall i :: 0 <= i < |items| ==> Same(items[i], w.items[i])
    case Object(fields) =>
      && w.Object? && |w.fields| == |fields|
      && forall i :: 0 <= i < |fields| ==>
           exists j :: 0 <= j < |w.fields| && w.fields[j].key == fields[i].key && Same(fields[i].value, w.fields[j].value)
  }

  // ----- strings -----

  predicate High(c: int) {
    0xD800 <= c < 0xDC00
  }

  predicate Low(c: int) {
    0xDC00 <= c < 0xE000
  }

  /** A surrogate that is not half of a pair. */
  predicate Lone(s: Text, i: nat)
    requires i < |s|
  {
    if High(s[i]) then !(i + 1 < |s| && Low(s[i + 1]))
    else Low(s[i]) && !(i > 0 && High(s[i - 1]))
  }

  function HexDigit(d: int): int
    requires 0 <= d < 16
  {
    if d < 10 then '0' as int + d else 'a' as int + d - 10
  }

  function Hex4(c: int): Text
    requires Unit(c)
  {
    [HexDigit(c / 0x1000), HexDigit(c / 0x100 % 16), HexDigit(c / 16 % 16), HexDigit(c % 16)]
  }

  /** The short escapes of JSON, as the letter that follows the backslash. */
  function Letter(c: int): int {
    if c == QUOTE then QUOTE
    else if c == SLASH then SLASH
    else if c == 8 then 'b' as int
    else if c == 9 then 't' as int
    else if c == 10 then 'n' as int
    else if c == 12 then 'f' as int
    else if c == 13 then 'r' as int
    else 0
  }

  function EscapeUnit(c: int, lone: bool): Text
    requires Unit(c)
  {
    if Letter(c) != 0 then [SLASH, Letter(c)]
    else if c < 0x20 || lone then [SLASH, 'u' as int] + Hex4(c)
    else [c]
  }

  function Escape(s: Text, i: nat): Text
    requires i <= |s| && Units(s)
    decreases |s| - i
  {
    if i == |s| then [] else EscapeUnit(s[i], Lone(s, i)) + Escape(s, i + 1)
  }

  function Quote(s: Text): Text
    requires Units(s)
  {
    [QUOTE] + Escape(s, 0) + [QUOTE]
  }

  // ----- reading a string back -----

  function HexValue(c: int): int {
    if '0' as int <= c <= '9' as int then c - '0' as int else c - 'a' as int + 10
  }

  function Unletter(c: int): int {
    if c == 'b' as int then 8
    else if c == 't' as int then 9
    else if c == 'n' as int then 10
    else if c == 'f' as int then 12
    else if c == 'r' as int then 13
    else c
  }

  /** The units up to the closing quote, and what follows it. */
  function ReadString(t: Text): (Text, Text)
    decreases |t|
  {
    if t == [] || t[0] == QUOTE then ([], if t == [] then [] else t[1..])
    else if t[0] != SLASH || |t| < 2 then
      var rest := ReadString(t[1..]);
      ([t[0]] + rest.0, rest.1)
    else if t[1] == 'u' as int && |t| >= 6 then
      var rest := ReadString(t[6..]);
      ([HexValue(t[2]) * 0x1000 + HexValue(t[3]) * 0x100 + HexValue(t[4]) * 16 + HexValue(t[5])] + rest.0, rest.1)
    else
      var rest := ReadString(t[2..]);
      ([Unletter(t[1])] + rest.0, rest.1)
  }

  lemma HexReads(c: int)
    requires Unit(c)
    ensures var h := Hex4(c);
      HexValue(h[0]) * 0x1000 + HexValue(h[1]) * 0x100 + HexValue(h[2]) * 16 + HexValue(h[3]) == c
  {
    assert c == c / 16 * 16 + c % 16;
    assert c / 16 == c / 0x100 * 16 + c / 16 % 16;
    assert c / 0x100 == c / 0x1000 * 16 + c / 0x100 % 16;
  }

  lemma UnitReads(c: int, lone: bool, rest: Text)
    requires Unit(c)
    ensures ReadString(EscapeUnit(c, lone) + rest) == ([c] + ReadString(rest).0, ReadString(rest).1)
  {
    var t := EscapeUnit(c, lone) + rest;
    if Letter(c) != 0 {
      assert t[2..] == rest && t[1] == Letter(c);
    } else if c < 0x20 || lone {
      HexReads(c);
      assert t[6..] == rest && t[2..6] == Hex4(c);
    } else {
      assert t[1..] == rest;
    }
  }

  lemma {:induction false} EscapeReads(s: Text, i: nat, x: Text)
    requires Units(s) && i <= |s|
    ensures ReadString(Escape(s, i) + [QUOTE] + x) == (s[i..], x)
    decreases |s| - i
  {
    hide EscapeUnit;
    if i == |s| {
      assert Escape(s, i) + [QUOTE] + x == [QUOTE] + x;
      EndReads(x);
    } else {
      EscapeReads(s, i + 1, x);
      hide ReadString;
      UnitReads(s[i], Lone(s, i), Escape(s, i + 1) + [QUOTE] + x);
      assert Escape(s, i) + [QUOTE] + x == EscapeUnit(s[i], Lone(s, i)) + (Escape(s, i + 1) + [QUOTE] + x);
      assert s[i..] == [s[i]] + s[i + 1..];
    }
  }

  lemma EndReads(x: Text)
    ensures ReadString([QUOTE] + x) == ([], x)
  {
    assert ([QUOTE] + x)[1..] == x;
  }

  /** A quoted string is told from any other by its own text, whatever follows. */
  lemma QuotePrefix(s: Text, x: Text, t: Text, y: Text)
    requires Units(s) && Units(t) && Quote(s) + x == Quote(t) + y
    ensures s == t && x == y
  {
    hide Escape, ReadString;
    assert (Quote(s) + x)[1..] == Escape(s, 0) + [QUOTE] + x;
    assert (Quote(t) + y)[1..] == Escape(t, 0) + [QUOTE] + y;
    EscapeReads(s, 0, x);
    EscapeReads(t, 0, y);
  }

  // ----- printing -----

  const NULL: Text := ['n' as int, 'u' as int, 'l' as int, 'l' as int]
  const TRUE: Text := ['t' as int, 'r' as int, 'u' as int, 'e' as int]
  const FALSE: Text := ['f' as int, 'a' as int, 'l' as int, 's' as int, 'e' as int]

  /** JSON text with keys in the order they stand in. */
  ghost function Print(v: Json): Text
    requires Legal(v)
    decreases v
  {
    match v
    case Null => NULL
    case Bool(b) => if b then TRUE else FALSE
    case Number(t) => t
    case String(s) => Quote(s)
    case Array(items) =>
      [LEFT] + if items == [] then [RIGHT] else Print(items[0]) + PrintItems(items[1..])
    case Object(fields) =>
      [OPEN] + if fields == [] then [CLOSE] else PrintField(fields[0]) + PrintFields(fields[1..])
  }

  ghost function PrintItems(items: seq<Json>): Text
    requires forall i :: 0 <= i < |items| ==> Legal(items[i])
    decreases items
  {
    if items == [] then [RIGHT] else [COMMA] + Print(items[0]) + PrintItems(items[1..])
  }

  ghost function PrintField(f: Field): Text
    requires Units(f.key) && Legal(f.value)
    decreases f
  {
    Quote(f.key) + [COLON] + Print(f.value)
  }

  ghost function PrintFields(fields: seq<Field>): Text
    requires forall i :: 0 <= i < |fields| ==> Units(fields[i].key) && Legal(fields[i].value)
    decreases fields
  {
    if fields == [] then [CLOSE] else [COMMA] + PrintField(fields[0]) + PrintFields(fields[1..])
  }

  // ----- a printed value is told from any other -----

  predicate Stops(x: Text) {
    x == [] || !NumberUnit(x[0])
  }

  /** The kind of value that a first code unit announces. */
  function KindOf(c: int): int {
    if c == 'n' as int then 0
    else if c == 't' as int then 1
    else if c == 'f' as int then 2
    else if c == QUOTE then 3
    else if c == LEFT then 4
    else if c == OPEN then 5
    else 6
  }

  function Kind(v: Json): int {
    match v
    case Null => 0
    case Bool(b) => if b then 1 else 2
    case String(_) => 3
    case Array(_) => 4
    case Object(_) => 5
    case Number(_) => 6
  }

  lemma PrintLead(v: Json, x: Text)
    requires Legal(v)
    ensures Print(v) != [] && KindOf((Print(v) + x)[0]) == Kind(v)
  {
  }

  lemma TailLead(items: seq<Json>, x: Text)
    requires forall i :: 0 <= i < |items| ==> Legal(items[i])
    ensures Stops(PrintItems(items) + x) && PrintItems(items) != []
    ensures (PrintItems(items) + x)[0] == if items == [] then RIGHT else COMMA
  {
  }

  lemma FieldsLead(fields: seq<Field>, x: Text)
    requires forall i :: 0 <= i < |fields| ==> Units(fields[i].key) && Legal(fields[i].value)
    ensures Stops(PrintFields(fields) + x) && PrintFields(fields) != []
    ensures (PrintFields(fields) + x)[0] == if fields == [] then CLOSE else COMMA
  {
  }

  lemma {:induction false} NumberPrefix(t: Text, x: Text, u: Text, y: Text)
    requires (forall i :: 0 <= i < |t| ==> NumberUnit(t[i])) && forall i :: 0 <= i < |u| ==> NumberUnit(u[i])
    requires Stops(x) && Stops(y) && t + x == u + y
    ensures t == u && x == y
  {
    NumberLead(t, x);
    NumberLead(u, y);
    if t != [] {
      NumberPrefix(t[1..], x, u[1..], y);
      assert t == [t[0]] + t[1..] && u == [u[0]] + u[1..];
    }
  }

  lemma NumberLead(t: Text, x: Text)
    requires (forall i :: 0 <= i < |t| ==> NumberUnit(t[i])) && Stops(x)
    ensures Stops(t + x) <==> t == []
    ensures t == [] ==> t + x == x
    ensures t != [] ==> (t + x)[0] == t[0] && (t + x)[1..] == t[1..] + x
  {
    assert t != [] ==> (t + x)[0] == t[0];
  }

  lemma {:induction false} PrintPrefix(v: Json, x: Text, w: Json, y: Text)
    requires Legal(v) && Legal(w) && Stops(x) && Stops(y) && Print(v) + x == Print(w) + y
    ensures v == w && x == y
    decreases v, 1
  {
    hide Quote, Stops, NumberUnit, Units;
    PrintLead(v, x);
    PrintLead(w, y);
    match v
    case Null => assert (Print(v) + x)[4..] == x && (Print(w) + y)[4..] == y;
    case Bool(b) =>
      var n := if b then 4 else 5;
      assert (Print(v) + x)[n..] == x && (Print(w) + y)[n..] == y;
    case Number(t) => NumberPrefix(t, x, w.text, y);
    case String(s) => QuotePrefix(s, x, w.s, y);
    case Array(items) => ArrayPrefix(v, x, w, y);
    case Object(fields) => ObjectPrefix(v, x, w, y);
  }

  lemma ArrayPrefix(v: Json, x: Text, w: Json, y: Text)
    requires Legal(v) && Legal(w) && v.Array? && w.Array? && Print(v) + x == Print(w) + y
    ensures v == w && x == y
    decreases v, 0
  {
    hide Stops, NumberUnit, Print, PrintItems;
    var a, b := v.items, w.items;
    Inside(v, x);
    Inside(w, y);
    if a != [] { FirstIsNotRight(a[0], PrintItems(a[1..]) + x); }
    if b != [] { FirstIsNotRight(b[0], PrintItems(b[1..]) + y); }
    assert ([RIGHT] + x)[1..] == x && ([RIGHT] + y)[1..] == y;
    if a != [] {
      TailLead(a[1..], x);
      TailLead(b[1..], y);
      PrintPrefix(a[0], PrintItems(a[1..]) + x, b[0], PrintItems(b[1..]) + y);
      ItemsPrefix(a[1..], x, b[1..], y);
      assert a == [a[0]] + a[1..] && b == [b[0]] + b[1..];
    }
  }

  lemma Inside(v: Json, x: Text)
    requires Legal(v) && v.Array?
    ensures (Print(v) + x)[1..] ==
            if v.items == [] then [RIGHT] + x else Print(v.items[0]) + (PrintItems(v.items[1..]) + x)
  {
  }

  lemma FirstIsNotRight(v: Json, x: Text)
    requires Legal(v)
    ensures Print(v) + x != [] && (Print(v) + x)[0] != RIGHT
  {
    PrintLead(v, x);
    assert (Print(v) + x)[0] == Print(v)[0];
  }

  lemma {:induction false} ItemsPrefix(a: seq<Json>, x: Text, b: seq<Json>, y: Text)
    requires (forall i :: 0 <= i < |a| ==> Legal(a[i])) && forall i :: 0 <= i < |b| ==> Legal(b[i])
    requires PrintItems(a) + x == PrintItems(b) + y
    ensures a == b && x == y
    decreases a, 0
  {
    hide Stops, NumberUnit, Legal, Print;
    TailLead(a, x);
    TailLead(b, y);
    if a == [] {
      assert (PrintItems(a) + x)[1..] == x && (PrintItems(b) + y)[1..] == y;
    } else {
      TailLead(a[1..], x);
      TailLead(b[1..], y);
      assert (PrintItems(a) + x)[1..] == Print(a[0]) + (PrintItems(a[1..]) + x);
      assert (PrintItems(b) + y)[1..] == Print(b[0]) + (PrintItems(b[1..]) + y);
      PrintPrefix(a[0], PrintItems(a[1..]) + x, b[0], PrintItems(b[1..]) + y);
      ItemsPrefix(a[1..], x, b[1..], y);
      assert a == [a[0]] + a[1..] && b == [b[0]] + b[1..];
    }
  }

  lemma {:induction false} FieldPrefix(f: Field, x: Text, g: Field, y: Text)
    requires Units(f.key) && Legal(f.value) && Units(g.key) && Legal(g.value) && Stops(x) && Stops(y)
    requires PrintField(f) + x == PrintField(g) + y
    ensures f == g && x == y
    decreases f, 0
  {
    hide Stops, NumberUnit, Legal, Print, Quote, Units;
    var p, q := [COLON] + (Print(f.value) + x), [COLON] + (Print(g.value) + y);
    assert PrintField(f) + x == Quote(f.key) + p;
    assert PrintField(g) + y == Quote(g.key) + q;
    QuotePrefix(f.key, p, g.key, q);
    assert p[1..] == Print(f.value) + x && q[1..] == Print(g.value) + y;
    PrintPrefix(f.value, x, g.value, y);
  }

  ghost predicate LegalFields(fields: seq<Field>) {
    forall i :: 0 <= i < |fields| ==> Units(fields[i].key) && Legal(fields[i].value)
  }

  lemma ObjectPrefix(v: Json, x: Text, w: Json, y: Text)
    requires Legal(v) && Legal(w) && v.Object? && w.Object? && Print(v) + x == Print(w) + y
    ensures v == w && x == y
    decreases v, 0
  {
    hide Stops, NumberUnit, Print, PrintField, PrintFields;
    var a, b := v.fields, w.fields;
    InsideObject(v, x);
    InsideObject(w, y);
    if a != [] { FirstIsQuote(a[0], PrintFields(a[1..]) + x); }
    if b != [] { FirstIsQuote(b[0], PrintFields(b[1..]) + y); }
    assert ([CLOSE] + x)[1..] == x && ([CLOSE] + y)[1..] == y;
    if a != [] {
      FieldsLead(a[1..], x);
      FieldsLead(b[1..], y);
      FieldPrefix(a[0], PrintFields(a[1..]) + x, b[0], PrintFields(b[1..]) + y);
      FieldsPrefix(a[1..], x, b[1..], y);
      assert a == [a[0]] + a[1..] && b == [b[0]] + b[1..];
    }
  }

  lemma InsideObject(v: Json, x: Text)
    requires Legal(v) && v.Object?
    ensures (Print(v) + x)[1..] ==
            if v.fields == [] then [CLOSE] + x else PrintField(v.fields[0]) + (PrintFields(v.fields[1..]) + x)
  {
  }

  lemma FirstIsQuote(f: Field, x: Text)
    requires Units(f.key) && Legal(f.value)
    ensures PrintField(f) + x != [] && (PrintField(f) + x)[0] == QUOTE
  {
    assert (PrintField(f) + x)[0] == Quote(f.key)[0];
  }

  lemma {:induction false} FieldsPrefix(a: seq<Field>, x: Text, b: seq<Field>, y: Text)
    requires LegalFields(a) && LegalFields(b) && PrintFields(a) + x == PrintFields(b) + y
    ensures a == b && x == y
    decreases a, 0
  {
    hide Stops, NumberUnit, Legal, PrintField, Units;
    FieldsLead(a, x);
    FieldsLead(b, y);
    if a == [] {
      assert (PrintFields(a) + x)[1..] == x && (PrintFields(b) + y)[1..] == y;
    } else {
      FieldsLead(a[1..], x);
      FieldsLead(b[1..], y);
      assert (PrintFields(a) + x)[1..] == PrintField(a[0]) + (PrintFields(a[1..]) + x);
      assert (PrintFields(b) + y)[1..] == PrintField(b[0]) + (PrintFields(b[1..]) + y);
      FieldPrefix(a[0], PrintFields(a[1..]) + x, b[0], PrintFields(b[1..]) + y);
      FieldsPrefix(a[1..], x, b[1..], y);
      assert a == [a[0]] + a[1..] && b == [b[0]] + b[1..];
    }
  }

  // ----- canonical text -----

  datatype Entry = Entry(key: Text, text: Text)

  function EntryKey(e: Entry): Text {
    e.key
  }

  function Join(texts: seq<Text>): Text {
    if texts == [] then [] else if |texts| == 1 then texts[0] else texts[0] + [COMMA] + Join(texts[1..])
  }

  function Texts(entries: seq<Entry>): seq<Text> {
    if entries == [] then [] else [entries[0].text] + Texts(entries[1..])
  }

  /** The text of a value with the keys of every object in order. */
  ghost function Canon(v: Json): Text
    requires Legal(v)
    decreases v
  {
    match v
    case Null => NULL
    case Bool(b) => if b then TRUE else FALSE
    case Number(t) => t
    case String(s) => Quote(s)
    case Array(items) => [LEFT] + Join(CanonItems(items)) + [RIGHT]
    case Object(fields) => [OPEN] + Join(Texts(Sort(Entries(fields), EntryKey))) + [CLOSE]
  }

  ghost function CanonItems(items: seq<Json>): seq<Text>
    requires forall i :: 0 <= i < |items| ==> Legal(items[i])
    decreases items
  {
    if items == [] then [] else [Canon(items[0])] + CanonItems(items[1..])
  }

  ghost function Entries(fields: seq<Field>): seq<Entry>
    requires LegalFields(fields)
    decreases fields
  {
    if fields == [] then []
    else [Entry(fields[0].key, Quote(fields[0].key) + [COLON] + Canon(fields[0].value))] + Entries(fields[1..])
  }

  // ----- canonical text prints a value whose keys are in order -----

  function Normal(v: Json): Json
    decreases v
  {
    match v
    case Array(items) => Array(NormalItems(items))
    case Object(fields) => Object(Sort(NormalFields(fields), FieldKey))
    case _ => v
  }

  function NormalItems(items: seq<Json>): (r: seq<Json>)
    ensures |r| == |items|
    ensures forall i :: 0 <= i < |items| ==> r[i] == Normal(items[i])
    decreases items
  {
    if items == [] then [] else [Normal(items[0])] + NormalItems(items[1..])
  }

  function NormalFields(fields: seq<Field>): (r: seq<Field>)
    ensures |r| == |fields|
    ensures forall i :: 0 <= i < |fields| ==> r[i] == Field(fields[i].key, Normal(fields[i].value))
    decreases fields
  {
    if fields == [] then [] else [Field(fields[0].key, Normal(fields[0].value))] + NormalFields(fields[1..])
  }

  lemma LegalPermutes(a: seq<Field>, b: seq<Field>)
    requires LegalFields(a) && multiset(a) == multiset(b)
    ensures LegalFields(b)
  {
    hide Legal, Units;
    forall i | 0 <= i < |b| ensures Units(b[i].key) && Legal(b[i].value) {
      assert b[i] in multiset(a);
    }
  }

  lemma {:induction false} NormalLegal(v: Json)
    requires Legal(v)
    ensures Legal(Normal(v))
    decreases v
  {
    match v
    case Array(items) =>
      forall i | 0 <= i < |items| ensures Legal(Normal(items[i])) {
        NormalLegal(items[i]);
      }
    case Object(fields) => NormalObjectLegal(v);
    case _ =>
  }

  lemma NormalFieldsLegal(fields: seq<Field>)
    requires LegalFields(fields)
    ensures LegalFields(NormalFields(fields))
    decreases fields, 0
  {
    forall i | 0 <= i < |fields| ensures Legal(Normal(fields[i].value)) {
      NormalLegal(fields[i].value);
    }
  }

  lemma NormalObjectLegal(v: Json)
    requires Legal(v) && v.Object?
    ensures Legal(Normal(v)) && LegalFields(NormalFields(v.fields)) && Keyed(NormalFields(v.fields), FieldKey)
    decreases v, 0
  {
    hide Units;
    var each := NormalFields(v.fields);
    NormalFieldsLegal(v.fields);
    SortKeeps(each, FieldKey);
    LegalPermutes(each, Sort(each, FieldKey));
    assert Keyed(each, FieldKey);
    KeyedPermutes(each, Sort(each, FieldKey), FieldKey);
  }

  ghost predicate LegalItems(items: seq<Json>) {
    forall i :: 0 <= i < |items| ==> Legal(items[i])
  }

  ghost function PrintAll(items: seq<Json>): seq<Text>
    requires LegalItems(items)
  {
    if items == [] then [] else [Print(items[0])] + PrintAll(items[1..])
  }

  ghost function EntriesOf(fields: seq<Field>): seq<Entry>
    requires LegalFields(fields)
  {
    if fields == [] then [] else [Entry(fields[0].key, PrintField(fields[0]))] + EntriesOf(fields[1..])
  }

  lemma Regroup(t: Text, u: Text, c: int)
    ensures [COMMA] + (t + [COMMA] + u) + [c] == [COMMA] + t + ([COMMA] + u + [c])
  {
  }

  lemma {:induction false} JoinPrints(items: seq<Json>)
    requires LegalItems(items) && items != []
    ensures [COMMA] + Join(PrintAll(items)) + [RIGHT] == PrintItems(items)
  {
    hide Legal, Print;
    var rest := items[1..];
    assert PrintAll(items)[1..] == PrintAll(rest);
    if rest == [] {
      assert Join(PrintAll(items)) == Print(items[0]) && PrintItems(rest) == [RIGHT];
    } else {
      JoinPrints(rest);
      Regroup(Print(items[0]), Join(PrintAll(rest)), RIGHT);
    }
  }

  lemma {:induction false} JoinFields(fields: seq<Field>)
    requires LegalFields(fields) && fields != []
    ensures [COMMA] + Join(Texts(EntriesOf(fields))) + [CLOSE] == PrintFields(fields)
  {
    hide Legal, PrintField, Units;
    var rest := fields[1..];
    assert EntriesOf(fields)[1..] == EntriesOf(rest);
    assert Texts(EntriesOf(fields))[1..] == Texts(EntriesOf(rest));
    if rest == [] {
      assert Join(Texts(EntriesOf(fields))) == PrintField(fields[0]) && PrintFields(rest) == [CLOSE];
    } else {
      JoinFields(rest);
      assert |EntriesOf(rest)| >= 1 && |Texts(EntriesOf(rest))| >= 1;
      Regroup(PrintField(fields[0]), Join(Texts(EntriesOf(rest))), CLOSE);
    }
  }

  lemma InsertLegal(f: Field, fields: seq<Field>)
    requires LegalFields([f]) && LegalFields(fields)
    ensures LegalFields(Insert(f, fields, FieldKey))
  {
    hide Legal, Units;
    InsertKeeps(f, fields, FieldKey);
    assert multiset([f] + fields) == multiset{f} + multiset(fields);
    assert LegalFields([f] + fields) by {
      assert [f][0] == f;
    }
    LegalPermutes([f] + fields, Insert(f, fields, FieldKey));
  }

  lemma {:induction false} InsertMaps(f: Field, fields: seq<Field>)
    requires LegalFields([f]) && LegalFields(fields)
    ensures LegalFields(Insert(f, fields, FieldKey))
    ensures Units(f.key) && Legal(f.value)
    ensures Insert(Entry(f.key, PrintField(f)), EntriesOf(fields), EntryKey) == EntriesOf(Insert(f, fields, FieldKey))
  {
    hide Legal, PrintField, Units, Before;
    assert [f][0] == f;
    InsertLegal(f, fields);
    if fields != [] && Before(FieldKey(fields[0]), FieldKey(f)) {
      InsertMaps(f, fields[1..]);
    } else {
      assert ([f] + fields)[1..] == fields;
    }
  }

  lemma {:induction false} SortMaps(fields: seq<Field>)
    requires LegalFields(fields)
    ensures LegalFields(Sort(fields, FieldKey))
    ensures Sort(EntriesOf(fields), EntryKey) == EntriesOf(Sort(fields, FieldKey))
  {
    hide Legal, PrintField, Units, Insert;
    if fields != [] {
      SortMaps(fields[1..]);
      assert [fields[0]][0] == fields[0];
      InsertMaps(fields[0], Sort(fields[1..], FieldKey));
      assert EntriesOf(fields)[1..] == EntriesOf(fields[1..]);
    }
  }

  lemma {:induction false} CanonIsPrint(v: Json)
    requires Legal(v)
    ensures Legal(Normal(v)) && Canon(v) == Print(Normal(v))
    decreases v, 1
  {
    NormalLegal(v);
    match v
    case Array(items) => CanonArray(v);
    case Object(fields) => CanonObject(v);
    case _ =>
  }

  lemma CanonArray(v: Json)
    requires Legal(v) && Legal(Normal(v)) && v.Array?
    ensures Canon(v) == Print(Normal(v))
    decreases v, 0
  {
    hide Join, PrintAll, PrintItems, Print, NormalItems, CanonItems, Canon;
    var n := NormalItems(v.items);
    CanonItemsPrint(v.items);
    JoinNothing();
    ArrayTexts(v, n);
    if n != [] {
      JoinPrints(n);
      ItemsInside(n);
      var inner := Join(PrintAll(n)) + [RIGHT];
      assert ([COMMA] + inner)[1..] == inner;
    }
    assert Canon(v) == [LEFT] + (Join(PrintAll(n)) + [RIGHT]);
  }

  lemma ArrayTexts(v: Json, n: seq<Json>)
    requires Legal(v) && v.Array? && LegalItems(n) && Normal(v) == Array(n)
    ensures Legal(Normal(v))
    ensures LegalItems(v.items) && Canon(v) == [LEFT] + Join(CanonItems(v.items)) + [RIGHT]
    ensures Print(Normal(v)) == [LEFT] + if n == [] then [RIGHT] else Print(n[0]) + PrintItems(n[1..])
  {
    hide Join, CanonItems, PrintItems;
  }

  lemma ItemsInside(items: seq<Json>)
    requires LegalItems(items) && items != []
    ensures PrintItems(items) != [] && PrintItems(items)[1..] == Print(items[0]) + PrintItems(items[1..])
  {
    hide Print, Legal;
  }

  lemma JoinNothing()
    ensures Join(PrintAll([])) == [] && Join(Texts([])) == []
  {
  }

  lemma {:induction false} CanonItemsPrint(items: seq<Json>)
    requires LegalItems(items)
    ensures LegalItems(NormalItems(items)) && CanonItems(items) == PrintAll(NormalItems(items))
    decreases items, 0
  {
    hide Legal, Canon, Print, Normal;
    if items != [] {
      CanonIsPrint(items[0]);
      CanonItemsPrint(items[1..]);
      assert NormalItems(items)[1..] == NormalItems(items[1..]);
    }
  }

  lemma {:induction false} EntriesPrint(fields: seq<Field>)
    requires LegalFields(fields)
    ensures LegalFields(NormalFields(fields)) && Entries(fields) == EntriesOf(NormalFields(fields))
    decreases fields, 0
  {
    hide Legal, Canon, Print, Normal, Quote, Units;
    if fields != [] {
      CanonIsPrint(fields[0].value);
      EntriesPrint(fields[1..]);
      assert NormalFields(fields)[1..] == NormalFields(fields[1..]);
    }
  }

  lemma CanonObject(v: Json)
    requires Legal(v) && Legal(Normal(v)) && v.Object?
    ensures Canon(v) == Print(Normal(v))
    decreases v, 0
  {
    hide Join, EntriesOf, Sort, PrintFields, PrintField, NormalFields, Quote;
    var n := NormalFields(v.fields);
    EntriesPrint(v.fields);
    SortMaps(n);
    SortKeeps(n, FieldKey);
    var sorted := Sort(n, FieldKey);
    assert Normal(v) == Object(sorted);
    if sorted == [] {
      NoEntries();
      JoinNothing();
    } else {
      JoinFields(sorted);
      FieldsInside(sorted);
      var inner := Join(Texts(EntriesOf(sorted))) + [CLOSE];
      assert ([COMMA] + inner)[1..] == inner;
    }
    assert Canon(v) == [OPEN] + (Join(Texts(EntriesOf(sorted))) + [CLOSE]);
  }

  lemma FieldsInside(fields: seq<Field>)
    requires LegalFields(fields) && fields != []
    ensures PrintFields(fields) != [] && PrintFields(fields)[1..] == PrintField(fields[0]) + PrintFields(fields[1..])
  {
    hide PrintField, Legal, Units;
  }

  lemma NoEntries()
    ensures EntriesOf([]) == []
  {
  }

  // ----- equal texts are equal values up to the order of keys -----

  lemma {:induction false} SameNormal(v: Json, w: Json)
    requires Legal(v) && Legal(w) && Same(v, w)
    ensures Normal(v) == Normal(w)
    decreases v, 1
  {
    match v
    case Array(items) =>
      forall i | 0 <= i < |items| ensures Normal(items[i]) == Normal(w.items[i]) {
        SameNormal(items[i], w.items[i]);
      }
      assert NormalItems(items) == NormalItems(w.items);
    case Object(fields) => SameObject(v, w);
    case _ =>
  }

  lemma SameObject(v: Json, w: Json)
    requires Legal(v) && Legal(w) && Same(v, w) && v.Object?
    ensures Normal(v) == Normal(w)
    decreases v, 0
  {
    var a, b := NormalFields(v.fields), NormalFields(w.fields);
    forall i | 0 <= i < |a| ensures a[i] in b {
      var j :| 0 <= j < |w.fields| && w.fields[j].key == v.fields[i].key && Same(v.fields[i].value, w.fields[j].value);
      SameNormal(v.fields[i].value, w.fields[j].value);
      assert b[j] == a[i];
    }
    NormalObjectLegal(v);
    KeyedWithin(a, b);
    SortIgnoresOrder(a, b, FieldKey);
  }

  /** Fields with distinct keys that all stand in a list of the same length are that list, reordered. */
  lemma {:induction false} KeyedWithin(a: seq<Field>, b: seq<Field>)
    requires Keyed(a, FieldKey) && |a| == |b| && forall i :: 0 <= i < |a| ==> a[i] in b
    ensures multiset(a) == multiset(b)
  {
    if a != [] {
      var j :| 0 <= j < |b| && b[j] == a[0];
      var rest := b[..j] + b[j + 1..];
      assert b == b[..j] + [b[j]] + b[j + 1..];
      forall i | 0 <= i < |a[1..]| ensures a[1..][i] in rest {
        var k :| 0 <= k < |b| && b[k] == a[i + 1];
        assert FieldKey(a[0]) != FieldKey(a[i + 1]);
        assert if k < j then rest[k] == b[k] else rest[k - 1] == b[k];
      }
      KeyedWithin(a[1..], rest);
      assert a == [a[0]] + a[1..];
    }
  }

  lemma {:induction false} NormalSame(v: Json, w: Json)
    requires Legal(v) && Legal(w) && Normal(v) == Normal(w)
    ensures Same(v, w)
    decreases v, 1
  {
    match v
    case Array(items) =>
      assert |NormalItems(items)| == |NormalItems(w.items)|;
      forall i | 0 <= i < |items| ensures Same(items[i], w.items[i]) {
        assert NormalItems(items)[i] == NormalItems(w.items)[i];
        NormalSame(items[i], w.items[i]);
      }
    case Object(fields) => ObjectSame(v, w);
    case _ =>
  }

  lemma ObjectSame(v: Json, w: Json)
    requires Legal(v) && Legal(w) && Normal(v) == Normal(w) && v.Object?
    ensures Same(v, w)
    decreases v, 0
  {
    var a, b := NormalFields(v.fields), NormalFields(w.fields);
    SortKeeps(a, FieldKey);
    SortKeeps(b, FieldKey);
    assert |multiset(a)| == |a| && |multiset(b)| == |b|;
    forall i | 0 <= i < |v.fields|
      ensures exists j :: 0 <= j < |w.fields| && w.fields[j].key == v.fields[i].key
                          && Same(v.fields[i].value, w.fields[j].value)
    {
      assert a[i] in multiset(b);
      var j :| 0 <= j < |b| && b[j] == a[i];
      NormalSame(v.fields[i].value, w.fields[j].value);
    }
  }

  /** Canonical JSON is blind to the order of keys and to nothing else. */
  lemma CanonicalExactly(v: Json, w: Json)
    requires Legal(v) && Legal(w)
    ensures Canon(v) == Canon(w) <==> Same(v, w)
  {
    hide Legal, Canon, Print, Same, Normal;
    CanonIsPrint(v);
    CanonIsPrint(w);
    if Canon(v) == Canon(w) {
      var n, m := Normal(v), Normal(w);
      assert Print(n) + [] == Print(m) + [];
      PrintPrefix(n, [], m, []);
      NormalSame(v, w);
    }
    if Same(v, w) {
      SameNormal(v, w);
    }
  }
}
