/** Canonical base64 (sections 3.5 and 4 of RFC 4648). */
module Base64 {
  import opened Results

  type Byte = b: int | 0 <= b < 256
  type Bytes = seq<Byte>

  function CeilDiv(n: nat, d: nat): nat
    requires d > 0
  {
    (n + d - 1) / d
  }

  // ----- letters -----

  predicate Letter(c: char) {
    'A' <= c <= 'Z' || 'a' <= c <= 'z' || '0' <= c <= '9' || c == '+' || c == '/'
  }

  function LetterOf(v: int): (c: char)
    requires 0 <= v < 64
    ensures Letter(c)
  {
    if v < 26 then ('A' as int + v) as char
    else if v < 52 then ('a' as int + v - 26) as char
    else if v < 62 then ('0' as int + v - 52) as char
    else if v == 62 then '+' else '/'
  }

  function ValueOf(c: char): (v: int)
    requires Letter(c)
    ensures 0 <= v < 64
  {
    if 'A' <= c <= 'Z' then c as int - 'A' as int
    else if 'a' <= c <= 'z' then c as int - 'a' as int + 26
    else if '0' <= c <= '9' then c as int - '0' as int + 52
    else if c == '+' then 62 else 63
  }

  lemma LetterReads(v: int)
    requires 0 <= v < 64
    ensures ValueOf(LetterOf(v)) == v && LetterOf(v) != '='
  {
  }

  // ----- encoding -----

  function Group(a: Byte, b: Byte, c: Byte): string {
    [LetterOf(a / 4), LetterOf(a % 4 * 16 + b / 16), LetterOf(b % 16 * 4 + c / 64), LetterOf(c % 64)]
  }

  function Encode(bs: Bytes): string {
    if |bs| == 0 then ""
    else if |bs| == 1 then [LetterOf(bs[0] / 4), LetterOf(bs[0] % 4 * 16), '=', '=']
    else if |bs| == 2
    then [LetterOf(bs[0] / 4), LetterOf(bs[0] % 4 * 16 + bs[1] / 16), LetterOf(bs[1] % 16 * 4), '=']
    else Group(bs[0], bs[1], bs[2]) + Encode(bs[3..])
  }

  // ----- decoding letters, unused low bits dropped -----

  predicate Letters(s: string) {
    forall i :: 0 <= i < |s| ==> Letter(s[i])
  }

  function Ungroup(a: char, b: char, c: char, d: char): Bytes
    requires Letter(a) && Letter(b) && Letter(c) && Letter(d)
  {
    [ValueOf(a) * 4 + ValueOf(b) / 16, ValueOf(b) % 16 * 16 + ValueOf(c) / 4, ValueOf(c) % 4 * 64 + ValueOf(d)]
  }

  function DecodeLetters(s: string): Bytes
    requires Letters(s)
  {
    if |s| < 2 then []
    else if |s| == 2 then [ValueOf(s[0]) * 4 + ValueOf(s[1]) / 16]
    else if |s| == 3
    then [ValueOf(s[0]) * 4 + ValueOf(s[1]) / 16, ValueOf(s[1]) % 16 * 16 + ValueOf(s[2]) / 4]
    else Ungroup(s[0], s[1], s[2], s[3]) + DecodeLetters(s[4..])
  }

  // ----- the lenient decoder of the platform -----

  predicate Blank(c: char) {
    c in {' ', '\t', '\n', '\r', 12 as char}
  }

  function Squeeze(s: string): string {
    if s == "" then "" else (if Blank(s[0]) then "" else [s[0]]) + Squeeze(s[1..])
  }

  function Padding(s: string): (r: nat)
    ensures r <= 2 && r <= |s|
  {
    if |s| >= 2 && s[|s| - 1] == '=' && s[|s| - 2] == '=' then 2
    else if |s| >= 1 && s[|s| - 1] == '=' then 1 else 0
  }

  /** A string without its padding. */
  function Data(s: string): string {
    s[..|s| - Padding(s)]
  }

  /** Ignores whitespace, tolerates missing padding and drops stray low bits. */
  function Atob(s: string): Option<Bytes> {
    var squeezed := Squeeze(s);
    var data := if |squeezed| % 4 == 0 then Data(squeezed) else squeezed;
    if |data| % 4 == 1 || !Letters(data) then None else Some(DecodeLetters(data))
  }

  // ----- strict decoding -----

  function Decode(value: string, maximum: nat): (r: Result<Bytes>)
  {
    if |value| > CeilDiv(maximum, 3) * 4 || |value| % 4 != 0 then Err("base64_limit")
    else if !Letters(Data(value)) then Err("base64_shape")
    else
      var binary := Atob(value);
      if binary.None? then Err("base64_decode")
      else if |binary.value| > maximum || Encode(binary.value) != value then Err("base64_noncanonical")
      else Ok(binary.value)
  }

  /** The bytes are gathered a stretch at a time before they are encoded. */
  method EncodeBytes(value: Bytes) returns (r: string)
    ensures r == Encode(value)
  {
    hide Encode;
    var binary: Bytes := [];
    var index := 0;
    while index < |value|
      invariant 0 <= index
      invariant binary == if index < |value| then value[..index] else value
      decreases |value| - index
    {
      var end := if index + 8192 < |value| then index + 8192 else |value|;
      assert value[..index] + value[index..end] == value[..end];
      assert value[..|value|] == value;
      binary := binary + value[index..end];
      index := index + 8192;
    }
    return Encode(binary);
  }

  // ----- what encoding keeps -----

  lemma GroupReads(a: Byte, b: Byte, c: Byte)
    ensures var g := Group(a, b, c);
      Letters(g) && Ungroup(g[0], g[1], g[2], g[3]) == [a, b, c]
  {
    LetterReads(a / 4);
    LetterReads(a % 4 * 16 + b / 16);
    LetterReads(b % 16 * 4 + c / 64);
    LetterReads(c % 64);
    Bits(a, b, c);
  }

  lemma Bits(a: Byte, b: Byte, c: Byte)
    ensures a / 4 * 4 + (a % 4 * 16 + b / 16) / 16 == a
    ensures (a % 4 * 16 + b / 16) % 16 * 16 + (b % 16 * 4 + c / 64) / 4 == b
    ensures (b % 16 * 4 + c / 64) % 4 * 64 + c % 64 == c
  {
    assert (a % 4 * 16 + b / 16) / 16 == a % 4 && (a % 4 * 16 + b / 16) % 16 == b / 16;
    assert (b % 16 * 4 + c / 64) / 4 == b % 16 && (b % 16 * 4 + c / 64) % 4 == c / 64;
  }

  function PaddingFor(n: nat): nat {
    if n % 3 == 0 then 0 else 3 - n % 3
  }

  lemma EncodeStep(bs: Bytes)
    requires |bs| >= 3
    ensures Encode(bs) == Group(bs[0], bs[1], bs[2]) + Encode(bs[3..])
  {
  }

  lemma GroupPads(g: string, rest: string)
    requires |g| == 4 && Letters(g)
    ensures Padding(g + rest) == Padding(rest)
    ensures Data(g + rest) == g + Data(rest)
  {
    var s := g + rest;
    assert |rest| >= 1 ==> s[|s| - 1] == rest[|rest| - 1];
    assert |rest| >= 2 ==> s[|s| - 2] == rest[|rest| - 2];
    assert |rest| == 1 ==> s[|s| - 2] == g[3];
    assert |rest| == 0 ==> s[|s| - 1] == g[3];
  }

  predicate Encodes(e: string, bs: Bytes) {
    && |e| == CeilDiv(|bs|, 3) * 4 && Padding(e) == PaddingFor(|bs|)
    && Letters(Data(e)) && DecodeLetters(Data(e)) == bs
  }

  lemma OneEncodes(a: Byte)
    ensures Encodes(Encode([a]), [a])
  {
    OneReads(a);
    assert Encode([a]) == [LetterOf(a / 4), LetterOf(a % 4 * 16), '=', '='];
    assert Data(Encode([a])) == [LetterOf(a / 4), LetterOf(a % 4 * 16)];
  }

  lemma TwoEncode(a: Byte, b: Byte)
    ensures Encodes(Encode([a, b]), [a, b])
  {
    TwoReads(a, b);
    LetterReads(b % 16 * 4);
    assert Encode([a, b]) == [LetterOf(a / 4), LetterOf(a % 4 * 16 + b / 16), LetterOf(b % 16 * 4), '='];
    assert Data(Encode([a, b])) == [LetterOf(a / 4), LetterOf(a % 4 * 16 + b / 16), LetterOf(b % 16 * 4)];
  }

  lemma NoneEncodes()
    ensures Encodes(Encode([]), [])
  {
  }

  lemma LetterJoins(g: string, rest: string)
    requires |g| == 4 && Letters(g) && Letters(rest)
    ensures Letters(g + rest)
    ensures DecodeLetters(g + rest) == Ungroup(g[0], g[1], g[2], g[3]) + DecodeLetters(rest)
  {
    assert (g + rest)[4..] == rest;
  }

  lemma ThreeMore(n: nat)
    ensures CeilDiv(n + 3, 3) == CeilDiv(n, 3) + 1 && PaddingFor(n + 3) == PaddingFor(n)
  {
  }

  lemma GroupEncodes(g: string, rest: string, a: Byte, b: Byte, c: Byte, bs: Bytes)
    requires |g| == 4 && Letters(g) && Ungroup(g[0], g[1], g[2], g[3]) == [a, b, c] && Encodes(rest, bs)
    ensures Encodes(g + rest, [a, b, c] + bs)
  {
    hide DecodeLetters, Data, Padding, Ungroup, Letters, CeilDiv, PaddingFor;
    ThreeMore(|bs|);
    GroupPads(g, rest);
    LetterJoins(g, Data(rest));
  }

  /** Four characters for every three bytes begun, padded to the end of the last four, and read back. */
  lemma {:induction false} EncodeReads(bs: Bytes)
    ensures Encodes(Encode(bs), bs)
  {
    hide Encode, Encodes, Group;
    if bs == [] {
      NoneEncodes();
    } else if |bs| == 1 {
      OneEncodes(bs[0]);
      assert bs == [bs[0]];
    } else if |bs| == 2 {
      TwoEncode(bs[0], bs[1]);
      assert bs == [bs[0], bs[1]];
    } else {
      EncodeStep(bs);
      EncodeReads(bs[3..]);
      GroupReads(bs[0], bs[1], bs[2]);
      GroupLength(bs[0], bs[1], bs[2]);
      GroupEncodes(Group(bs[0], bs[1], bs[2]), Encode(bs[3..]), bs[0], bs[1], bs[2], bs[3..]);
      assert bs == [bs[0], bs[1], bs[2]] + bs[3..];
    }
  }

  lemma GroupLength(a: Byte, b: Byte, c: Byte)
    ensures |Group(a, b, c)| == 4
  {
  }

  lemma {:induction false} EncodeChars(bs: Bytes)
    ensures forall i :: 0 <= i < |Encode(bs)| ==> Letter(Encode(bs)[i]) || Encode(bs)[i] == '='
  {
    hide Letter;
    if |bs| >= 3 {
      EncodeChars(bs[3..]);
    }
  }

  lemma OneReads(a: Byte)
    ensures var s := [LetterOf(a / 4), LetterOf(a % 4 * 16)]; Letters(s) && DecodeLetters(s) == [a]
  {
    LetterReads(a / 4);
    LetterReads(a % 4 * 16);
    Bits(a, 0, 0);
  }

  lemma TwoReads(a: Byte, b: Byte)
    ensures var s := [LetterOf(a / 4), LetterOf(a % 4 * 16 + b / 16), LetterOf(b % 16 * 4)];
      Letters(s) && DecodeLetters(s) == [a, b]
  {
    LetterReads(a / 4);
    LetterReads(a % 4 * 16 + b / 16);
    LetterReads(b % 16 * 4);
    Bits(a, b, 0);
  }

  lemma {:induction false} NothingSqueezed(s: string)
    requires forall i :: 0 <= i < |s| ==> Letter(s[i]) || s[i] == '='
    ensures Squeeze(s) == s
  {
    if s != "" {
      NothingSqueezed(s[1..]);
      assert s == [s[0]] + s[1..];
    }
  }

  lemma DataRest(n: nat, s: string)
    requires |s| == CeilDiv(n, 3) * 4 && Padding(s) == PaddingFor(n)
    ensures |s| % 4 == 0 && |Data(s)| % 4 != 1
  {
  }

  lemma CeilGrows(m: nat, n: nat)
    requires m <= n
    ensures CeilDiv(m, 3) <= CeilDiv(n, 3)
  {
  }

  /** The lenient decoder inverts the encoder. */
  lemma AtobReads(bs: Bytes)
    ensures Atob(Encode(bs)) == Some(bs)
  {
    hide Encode, DecodeLetters, Letters, Data, Padding;
    EncodeReads(bs);
    EncodeChars(bs);
    NothingSqueezed(Encode(bs));
    DataRest(|bs|, Encode(bs));
  }

  /** A string is decoded exactly when it is the encoding of bytes within the maximum, and to those bytes. */
  lemma DecodesExactly(value: string, maximum: nat, bs: Bytes)
    ensures Decode(value, maximum) == Ok(bs) <==> value == Encode(bs) && |bs| <= maximum
  {
    hide Encode, Atob, Data, Letters, CeilDiv;
    if value == Encode(bs) && |bs| <= maximum {
      EncodeReads(bs);
      DataRest(|bs|, value);
      CeilGrows(|bs|, maximum);
      AtobReads(bs);
    }
  }

  /** Different bytes have different encodings. */
  lemma EncodeInjective(a: Bytes, b: Bytes)
    requires Encode(a) == Encode(b)
    ensures a == b
  {
    AtobReads(a);
    AtobReads(b);
  }
}
