/** Row identifiers: a kind word and normalised, percent-encoded parts, joined by colons. */
module StableIds {

  import opened Texts

  // ----- percent-encoding of UTF-8 -----

  type Byte = b: int | 0 <= b < 256

  function Utf8(c: char): (r: seq<Byte>)
    ensures 1 <= |r| <= 4
  {
    var u := c as int;
    if u < 0x80 then [u]
    else if u < 0x800 then [0xC0 + u / 0x40, 0x80 + u % 0x40]
    else if u < 0x10000 then [0xE0 + u / 0x1000, 0x80 + u / 0x40 % 0x40, 0x80 + u % 0x40]
    else [0xF0 + u / 0x40000, 0x80 + u / 0x1000 % 0x40, 0x80 + u / 0x40 % 0x40, 0x80 + u % 0x40]
  }

  /** The code point that a UTF-8 sequence stands for. */
  function CodePoint(b: seq<int>): int
    requires 1 <= |b| <= 4
  {
    if |b| == 1 then b[0]
    else if |b| == 2 then (b[0] - 0xC0) * 0x40 + (b[1] - 0x80)
    else if |b| == 3 then (b[0] - 0xE0) * 0x1000 + (b[1] - 0x80) * 0x40 + (b[2] - 0x80)
    else (b[0] - 0xF0) * 0x40000 + (b[1] - 0x80) * 0x1000 + (b[2] - 0x80) * 0x40 + (b[3] - 0x80)
  }

  /** How long a sequence is, told by its first byte. */
  function LengthOf(lead: Byte): nat {
    if lead < 0x80 then 1 else if lead < 0xE0 then 2 else if lead < 0xF0 then 3 else 4
  }

  lemma Utf8Reads(c: char)
    ensures CodePoint(Utf8(c)) == c as int
    ensures LengthOf(Utf8(c)[0]) == |Utf8(c)|
    ensures forall k :: 1 <= k < |Utf8(c)| ==> 0x80 <= Utf8(c)[k] < 0xC0
    ensures |Utf8(c)| == if c as int < 0x80 then 1 else if c as int < 0x800 then 2 else if c as int < 0x10000 then 3 else 4
  {
    var u := c as int;
    if 0x80 <= u {
      Split(u, 0x40);
      if 0x800 <= u {
        Split(u / 0x40, 0x40);
        if 0x10000 <= u {
          Split(u / 0x1000, 0x40);
        }
      }
    }
  }

  lemma Split(u: int, k: int)
    requires 0 <= u && k == 0x40
    ensures u == u / k * k + u % k && u / k / k == u / 0x1000 && u / 0x1000 / k == u / 0x40000
  {
  }

  function Hex(b: Byte): string {
    [Texts.HEX[b / 16], Texts.HEX[b % 16]]
  }

  predicate Unreserved(c: char) {
    'A' <= c <= 'Z' || 'a' <= c <= 'z' || '0' <= c <= '9'
    || c in {'-', '_', '.', '!', '~', '*', '\'', '(', ')'}
  }

  function Percent(bs: seq<Byte>): string {
    if bs == [] then "" else "%" + Hex(bs[0]) + Percent(bs[1..])
  }

  function EncodeChar(c: char): string {
    if Unreserved(c) then [c] else Percent(Utf8(c))
  }

  function Encode(s: string): string {
    if s == "" then "" else EncodeChar(s[0]) + Encode(s[1..])
  }

  // ----- what the encoding of a character is -----

  function HexValue(c: char): int {
    if c as int <= 0x39 then c as int - 0x30 else c as int - 0x37
  }

  lemma HexReads(b: Byte)
    ensures HexValue(Hex(b)[0]) * 16 + HexValue(Hex(b)[1]) == b
    ensures forall i :: 0 <= i < 2 ==> 0x30 <= Hex(b)[i] as int <= 0x39 || 0x41 <= Hex(b)[i] as int <= 0x46
  {
    Texts.HexExactly(Texts.HEX[b / 16]);
  }

  predicate Triplet(s: string, i: nat, b: Byte)
    requires i + 3 <= |s|
  {
    s[i] == '%' && s[i + 1] == Hex(b)[0] && s[i + 2] == Hex(b)[1]
  }

  lemma PercentSteps(bs: seq<Byte>)
    requires bs != []
    ensures |Percent(bs)| == 3 + |Percent(bs[1..])| && Triplet(Percent(bs), 0, bs[0])
    ensures forall i :: 0 <= i < |Percent(bs[1..])| ==> Percent(bs)[3 + i] == Percent(bs[1..])[i]
  {
    var front, rest := "%" + Hex(bs[0]), Percent(bs[1..]);
    assert Percent(bs) == front + rest && |front| == 3;
  }

  lemma {:induction false} PercentLength(bs: seq<Byte>)
    ensures |Percent(bs)| == 3 * |bs|
  {
    if bs != [] {
      PercentSteps(bs);
      PercentLength(bs[1..]);
    }
  }

  lemma {:induction false} PercentAt(bs: seq<Byte>, k: nat)
    requires k < |bs|
    ensures |Percent(bs)| == 3 * |bs| && Triplet(Percent(bs), 3 * k, bs[k])
    decreases |bs|
  {
    hide Percent, Hex;
    PercentLength(bs);
    PercentSteps(bs);
    if k > 0 {
      var rest := Percent(bs[1..]);
      PercentAt(bs[1..], k - 1);
      var j: nat := 3 * (k - 1);
      assert Percent(bs)[3 + j] == rest[j] && Percent(bs)[3 + (j + 1)] == rest[j + 1] && Percent(bs)[3 + (j + 2)] == rest[j + 2];
    }
  }

  /** The letters, the digits and nine marks stay as they are. */
  predicate UnreservedCode(u: int) {
    || 0x30 <= u <= 0x39 || 0x41 <= u <= 0x5A || 0x61 <= u <= 0x7A
    || u == 0x21 || 0x27 <= u <= 0x2A || u == 0x2D || u == 0x2E || u == 0x5F || u == 0x7E
  }

  /** A character outside these is one triplet for each byte of its UTF-8 form. */
  lemma EncodesExactly(c: char)
    ensures UnreservedCode(c as int) ==> EncodeChar(c) == [c]
    ensures !UnreservedCode(c as int) ==>
      && |EncodeChar(c)| == 3 * |Utf8(c)|
      && forall k :: 0 <= k < |Utf8(c)| ==>
           && EncodeChar(c)[3 * k] == '%'
           && HexValue(EncodeChar(c)[3 * k + 1]) * 16 + HexValue(EncodeChar(c)[3 * k + 2]) == Utf8(c)[k]
  {
    var bs := Utf8(c);
    if !Unreserved(c) {
      PercentAt(bs, 0);
      forall k | 0 <= k < |bs|
        ensures
          && Percent(bs)[3 * k] == '%'
          && HexValue(Percent(bs)[3 * k + 1]) * 16 + HexValue(Percent(bs)[3 * k + 2]) == bs[k]
      {
        PercentAt(bs, k);
        HexReads(bs[k]);
      }
    }
  }

  // ----- injectivity -----

  lemma HexInjective(a: Byte, b: Byte)
    requires Hex(a) == Hex(b)
    ensures a == b
  {
    HexDigits(a / 16, b / 16);
    HexDigits(a % 16, b % 16);
    assert Hex(a)[0] == Hex(b)[0] && Hex(a)[1] == Hex(b)[1];
  }

  lemma HexDigits(i: int, j: int)
    requires 0 <= i < 16 && 0 <= j < 16
    ensures Texts.HEX[i] == Texts.HEX[j] ==> i == j
  {
  }

  lemma {:induction false} PercentPrefix(a: seq<Byte>, x: string, b: seq<Byte>, y: string)
    requires |a| == |b| && Percent(a) + x == Percent(b) + y
    ensures a == b && x == y
    decreases |a|
  {
    if a == [] {
      assert Percent(a) + x == x && Percent(b) + y == y;
    } else {
      var p, q := Percent(a[1..]) + x, Percent(b[1..]) + y;
      assert Percent(a) + x == "%" + Hex(a[0]) + p;
      assert Percent(b) + y == "%" + Hex(b[0]) + q;
      assert ("%" + Hex(a[0]) + p)[1..3] == Hex(a[0]);
      assert ("%" + Hex(b[0]) + q)[1..3] == Hex(b[0]);
      HexInjective(a[0], b[0]);
      assert ("%" + Hex(a[0]) + p)[3..] == p;
      assert ("%" + Hex(b[0]) + q)[3..] == q;
      PercentPrefix(a[1..], x, b[1..], y);
      assert a == [a[0]] + a[1..] && b == [b[0]] + b[1..];
    }
  }

  lemma PercentLead(bs: seq<Byte>, x: string)
    requires bs != []
    ensures |Percent(bs) + x| >= 3 && (Percent(bs) + x)[0] == '%' && (Percent(bs) + x)[1..3] == Hex(bs[0])
  {
    assert Percent(bs) + x == "%" + Hex(bs[0]) + (Percent(bs[1..]) + x);
  }

  lemma EncodedLead(c: char, x: string)
    ensures |EncodeChar(c) + x| >= 1
    ensures Unreserved(c) ==> (EncodeChar(c) + x)[0] == c && (EncodeChar(c) + x)[1..] == x
    ensures !Unreserved(c) ==>
      && |EncodeChar(c) + x| >= 3
      && (EncodeChar(c) + x)[0] == '%'
      && (EncodeChar(c) + x)[1..3] == Hex(Utf8(c)[0])
  {
    if !Unreserved(c) {
      PercentLead(Utf8(c), x);
    }
  }

  /** An encoded character is told from any other by its own text, whatever follows. */
  lemma EncodeCharPrefix(c: char, x: string, d: char, y: string)
    requires EncodeChar(c) + x == EncodeChar(d) + y
    ensures c == d && x == y
  {
    EncodedLead(c, x);
    EncodedLead(d, y);
    if !Unreserved(c) && !Unreserved(d) {
      HexInjective(Utf8(c)[0], Utf8(d)[0]);
      Utf8Reads(c);
      Utf8Reads(d);
      PercentPrefix(Utf8(c), x, Utf8(d), y);
    }
  }

  lemma {:induction false} EncodeInjective(s: string, t: string)
    requires Encode(s) == Encode(t)
    ensures s == t
  {
    if s != "" && t != "" {
      EncodeCharPrefix(s[0], Encode(s[1..]), t[0], Encode(t[1..]));
      EncodeInjective(s[1..], t[1..]);
      assert s == [s[0]] + s[1..] && t == [t[0]] + t[1..];
    } else {
      EncodeNonEmpty(s);
      EncodeNonEmpty(t);
    }
  }

  lemma EncodeNonEmpty(s: string)
    ensures Encode(s) == "" <==> s == ""
  {
    if s != "" && !Unreserved(s[0]) {
      PercentLead(Utf8(s[0]), "");
    }
  }

  lemma {:induction false} PercentNoColon(bs: seq<Byte>)
    ensures ':' !in Percent(bs)
  {
    if bs != [] {
      PercentNoColon(bs[1..]);
      HexNoColon(bs[0] / 16);
      HexNoColon(bs[0] % 16);
    }
  }

  lemma HexNoColon(i: int)
    requires 0 <= i < 16
    ensures Texts.HEX[i] != ':'
  {
  }

  lemma {:induction false} EncodeNoColon(s: string)
    ensures ':' !in Encode(s)
  {
    if s != "" {
      EncodeNoColon(s[1..]);
      PercentNoColon(Utf8(s[0]));
    }
  }

  // ----- identifiers -----

  function Parts(parts: seq<string>): string {
    if parts == [] then "" else ":" + Encode(Normal(parts[0])) + Parts(parts[1..])
  }

  function StableId(kind: string, parts: seq<string>): string {
    kind + Parts(parts)
  }

  lemma PartsOf(a: string, b: string)
    ensures Parts([a]) == ":" + Encode(Normal(a))
    ensures Parts([a, b]) == ":" + Encode(Normal(a)) + ":" + Encode(Normal(b))
  {
    hide Encode, Normal;
    assert [a][1..] == [] && [a, b][1..] == [b] && [b][1..] == [];
    assert Parts([b]) == ":" + Encode(Normal(b)) + Parts([]);
    assert Parts([a, b]) == ":" + Encode(Normal(a)) + Parts([b]);
  }

  predicate AtColon(x: string) {
    x == "" || x[0] == ':'
  }

  lemma LeadBeforeColon(a: string, x: string)
    requires ':' !in a && AtColon(x)
    ensures AtColon(a + x) <==> a == ""
    ensures a != "" ==> (a + x)[0] == a[0] && (a + x)[1..] == a[1..] + x
    ensures a == "" ==> a + x == x
  {
    assert a != "" ==> (a + x)[0] == a[0];
  }

  /** Text up to the first colon is determined by the whole. */
  lemma {:induction false} ColonSplit(a: string, x: string, b: string, y: string)
    requires ':' !in a && ':' !in b && a + x == b + y
    requires AtColon(x) && AtColon(y)
    ensures a == b && x == y
  {
    LeadBeforeColon(a, x);
    LeadBeforeColon(b, y);
    if a != "" {
      ColonSplit(a[1..], x, b[1..], y);
      assert a == [a[0]] + a[1..] && b == [b[0]] + b[1..];
    }
  }

  ghost predicate SameParts(xs: seq<string>, ys: seq<string>) {
    |xs| == |ys| && forall i :: 0 <= i < |xs| ==> Normal(xs[i]) == Normal(ys[i])
  }

  lemma PartsHead(xs: seq<string>)
    requires xs != []
    ensures |Parts(xs)| >= 1 && Parts(xs)[1..] == Encode(Normal(xs[0])) + Parts(xs[1..])
    ensures AtColon(Parts(xs[1..]))
  {
    hide Encode, Normal;
    assert Parts(xs) == ":" + (Encode(Normal(xs[0])) + Parts(xs[1..]));
  }

  lemma PartsSplit(xs: seq<string>, ys: seq<string>)
    requires xs != [] && ys != [] && Parts(xs) == Parts(ys)
    ensures Normal(xs[0]) == Normal(ys[0]) && Parts(xs[1..]) == Parts(ys[1..])
  {
    hide Encode, Normal, Parts;
    PartsHead(xs);
    PartsHead(ys);
    EncodeNoColon(Normal(xs[0]));
    EncodeNoColon(Normal(ys[0]));
    ColonSplit(Encode(Normal(xs[0])), Parts(xs[1..]), Encode(Normal(ys[0])), Parts(ys[1..]));
    EncodeInjective(Normal(xs[0]), Normal(ys[0]));
  }

  lemma {:induction false} PartsInjective(xs: seq<string>, ys: seq<string>)
    requires Parts(xs) == Parts(ys)
    ensures SameParts(xs, ys)
  {
    hide Encode, Normal;
    if xs != [] && ys != [] {
      PartsSplit(xs, ys);
      PartsInjective(xs[1..], ys[1..]);
      forall i | 0 <= i < |xs| ensures Normal(xs[i]) == Normal(ys[i]) {
        if i > 0 {
          assert xs[1..][i - 1] == xs[i] && ys[1..][i - 1] == ys[i];
        }
      }
    }
  }

  lemma {:induction false} PartsDetermined(xs: seq<string>, ys: seq<string>)
    requires SameParts(xs, ys)
    ensures Parts(xs) == Parts(ys)
  {
    if xs != [] {
      forall i | 0 <= i < |xs| - 1 ensures Normal(xs[1..][i]) == Normal(ys[1..][i]) {
        assert xs[1..][i] == xs[i + 1] && ys[1..][i] == ys[i + 1];
      }
      PartsDetermined(xs[1..], ys[1..]);
    }
  }

  /** Two identifiers are the same exactly when kinds and normalised parts are. */
  lemma StableIdInjective(kind: string, xs: seq<string>, other: string, ys: seq<string>)
    requires ':' !in kind && ':' !in other
    ensures StableId(kind, xs) == StableId(other, ys) <==> kind == other && SameParts(xs, ys)
  {
    hide Encode, Normal;
    if StableId(kind, xs) == StableId(other, ys) {
      ColonSplit(kind, Parts(xs), other, Parts(ys));
      PartsInjective(xs, ys);
    }
    if kind == other && SameParts(xs, ys) {
      PartsDetermined(xs, ys);
    }
  }

  // ----- SQL string literals -----

  function Mark(c: char): string {
    if c == '\'' then "''" else [c]
  }

  /** Every quote of a value is doubled. */
  function Doubled(value: string): string {
    if value == "" then "" else Mark(value[0]) + Doubled(value[1..])
  }

  function Quote(value: string): string {
    "'" + Doubled(value) + "'"
  }

  /** What SQL reads after an opening quote: the value, and the text behind its closing quote. */
  function ReadLiteral(text: string): (r: (bool, string, string)) {
    if text == "" then (false, "", "")
    else if text[0] != '\'' then
      var rest := ReadLiteral(text[1..]);
      (rest.0, [text[0]] + rest.1, rest.2)
    else if |text| >= 2 && text[1] == '\'' then
      var rest := ReadLiteral(text[2..]);
      (rest.0, "'" + rest.1, rest.2)
    else (true, "", text[1..])
  }

  lemma ReadsOne(c: char, rest: string)
    requires ReadLiteral(rest).0
    ensures ReadLiteral(Mark(c) + rest) == (true, [c] + ReadLiteral(rest).1, ReadLiteral(rest).2)
  {
    var text := Mark(c) + rest;
    if c == '\'' {
      assert text[2..] == rest;
    } else {
      assert text[1..] == rest;
    }
  }

  /** A quoted value reads back as itself and ends where it was meant to, so no value can
      leak into the statement around it. */
  lemma {:induction false} QuoteReads(value: string, after: string)
    requires after == "" || after[0] != '\''
    ensures Quote(value) == "'" + (Doubled(value) + "'")
    ensures ReadLiteral(Doubled(value) + "'" + after) == (true, value, after)
  {
    hide ReadLiteral, Mark;
    if value == "" {
      assert Doubled(value) + "'" + after == "'" + after;
      EndsLiteral(after);
    } else {
      QuoteReads(value[1..], after);
      var rest := Doubled(value[1..]) + "'" + after;
      ReadsOne(value[0], rest);
      assert Doubled(value) + "'" + after == Mark(value[0]) + rest;
      assert value == [value[0]] + value[1..];
    }
  }

  lemma EndsLiteral(after: string)
    requires after == "" || after[0] != '\''
    ensures ReadLiteral("'" + after) == (true, "", after)
  {
    assert ("'" + after)[1..] == after;
  }
}
