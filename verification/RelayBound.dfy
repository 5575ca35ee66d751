/** Bounding the encoded size of a relayed message (sections 6.7 and 6.8 of RFC 2045). */
module RelayBound {
  import opened Results
  import opened Base64
  import StableIds
  import Lines = DkimBody
  import Texts

  const CRLF := "\r\n"
  const SOFT_BREAK := "=\r\n"
  const LINE_LIMIT := 76

  function Utf8(s: string): Bytes {
    if s == "" then [] else StableIds.Utf8(s[0]) + Utf8(s[1..])
  }

  // ----- quoted-printable -----

  /** Bytes that may stand for themselves. */
  predicate Printable(b: Byte) {
    b == 9 || (32 <= b <= 126 && b != 61)
  }

  /** One byte as it is written: itself, or escaped in three characters. */
  function Unit(b: Byte, escape: bool): (u: string)
    ensures |u| == 1 || |u| == 3
  {
    if escape || !Printable(b) then ['=', Texts.HEX[b / 16], Texts.HEX[b % 16]] else [b as int as char]
  }

  /** Quoted-printable text from a byte on, a column being written already. A line feed ends the line; a line that has
      no room for the next byte ends softly. Beyond the bytes that must be, any others may be escaped too. */
  function Quoted(bytes: Bytes, escapes: set<nat>, i: nat, column: nat): string
    requires i <= |bytes|
    decreases |bytes| - i
  {
    if i == |bytes| then ""
    else if bytes[i] == 10 then CRLF + Quoted(bytes, escapes, i + 1, 0)
    else
      var u := Unit(bytes[i], i in escapes);
      if column + |u| > LINE_LIMIT - 1 then SOFT_BREAK + (u + Quoted(bytes, escapes, i + 1, |u|))
      else u + Quoted(bytes, escapes, i + 1, column + |u|)
  }

  /** Quoted-printable text is at most four times as long as its bytes. */
  lemma {:induction false} QuotedBound(bytes: Bytes, escapes: set<nat>, i: nat, column: nat)
    requires i <= |bytes|
    ensures 3 * |Quoted(bytes, escapes, i, column)| <= 12 * (|bytes| - i) + column
    decreases |bytes| - i
  {
    hide Unit;
    if i < |bytes| {
      var u := Unit(bytes[i], i in escapes);
      QuotedBound(bytes, escapes, i + 1, 0);
      QuotedBound(bytes, escapes, i + 1, |u|);
      QuotedBound(bytes, escapes, i + 1, column + |u|);
    }
  }

  lemma QuotedFits(bytes: Bytes, escapes: set<nat>)
    ensures |Quoted(bytes, escapes, 0, 0)| <= 4 * |bytes|
  {
    QuotedBound(bytes, escapes, 0, 0);
  }

  ghost predicate Short(lines: seq<string>, column: nat) {
    && lines != [] && column + |lines[0]| <= LINE_LIMIT
    && forall i :: 1 <= i < |lines| ==> |lines[i]| <= LINE_LIMIT
  }

  lemma LetterSplit(c: char, rest: string)
    requires c != '\r' && c != '\n'
    ensures Lines.Split([c] + rest) == [[c] + Lines.Split(rest)[0]] + Lines.Split(rest)[1..]
  {
    var s := [c] + rest;
    assert s[0] == c && s[1..] == rest;
    assert |s| >= 2 ==> s[..2][0] == c;
  }

  lemma NoneSplit(lines: seq<string>)
    requires lines != []
    ensures ["" + lines[0]] + lines[1..] == lines
  {
    assert "" + lines[0] == lines[0];
  }

  lemma {:induction false} SplitUnit(u: string, rest: string)
    requires forall i :: 0 <= i < |u| ==> u[i] != '\r' && u[i] != '\n'
    ensures Lines.Split(u + rest) == [u + Lines.Split(rest)[0]] + Lines.Split(rest)[1..]
  {
    hide Lines.Split;
    if u == "" {
      assert u + rest == rest;
      NoneSplit(Lines.Split(rest));
    } else {
      var c, t := u[0], u[1..];
      SplitUnit(t, rest);
      LetterSplit(c, t + rest);
      assert u == [c] + t;
      Lines.Prepend(c, t, rest);
      Lines.Prepend(c, t, Lines.Split(rest)[0]);
    }
  }

  lemma HexPlain(d: int)
    requires 0 <= d < 16
    ensures Texts.HEX[d] != '\r' && Texts.HEX[d] != '\n'
  {
  }

  lemma UnitPlain(b: Byte, escape: bool)
    ensures forall i :: 0 <= i < |Unit(b, escape)| ==> Unit(b, escape)[i] != '\r' && Unit(b, escape)[i] != '\n'
  {
    HexPlain(b / 16);
    HexPlain(b % 16);
  }

  /** No line of quoted-printable text is longer than 76 characters. */
  lemma {:induction false} QuotedLines(bytes: Bytes, escapes: set<nat>, i: nat, column: nat)
    requires i <= |bytes| && column <= LINE_LIMIT - 1
    ensures Short(Lines.Split(Quoted(bytes, escapes, i, column)), column)
    decreases |bytes| - i
  {
    hide Unit, Lines.Split;
    if i == |bytes| {
      assert Lines.Split("") == [""] by { EmptySplit(); }
    } else if bytes[i] == 10 {
      QuotedLines(bytes, escapes, i + 1, 0);
      Lines.BreakSplits(Quoted(bytes, escapes, i + 1, 0));
    } else {
      var u := Unit(bytes[i], i in escapes);
      UnitPlain(bytes[i], i in escapes);
      if column + |u| > LINE_LIMIT - 1 {
        var rest := Quoted(bytes, escapes, i + 1, |u|);
        QuotedLines(bytes, escapes, i + 1, |u|);
        SplitUnit(u, rest);
        Lines.BreakSplits(u + rest);
        SplitUnit("=", CRLF + (u + rest));
        assert SOFT_BREAK + (u + rest) == "=" + (CRLF + (u + rest));
      } else {
        QuotedLines(bytes, escapes, i + 1, column + |u|);
        SplitUnit(u, Quoted(bytes, escapes, i + 1, column + |u|));
      }
    }
  }

  lemma EmptySplit()
    ensures Lines.Split("") == [""]
  {
  }

  // ----- reading quoted-printable back -----

  function HexValue(c: char): int {
    if '0' <= c <= '9' then c as int - '0' as int else c as int - 'A' as int + 10
  }

  function Clamp(v: int): Byte {
    if 0 <= v < 256 then v else 0
  }

  function Unquote(s: string): Bytes
    decreases |s|
  {
    if s == "" then []
    else if |s| >= 3 && s[0] == '=' && s[1] == '\r' then Unquote(s[3..])
    else if |s| >= 3 && s[0] == '=' then [Clamp(HexValue(s[1]) * 16 + HexValue(s[2]))] + Unquote(s[3..])
    else if |s| >= 2 && s[0] == '\r' then [10] + Unquote(s[2..])
    else [Clamp(s[0] as int)] + Unquote(s[1..])
  }

  lemma HexReads(d: int)
    requires 0 <= d < 16
    ensures HexValue(Texts.HEX[d]) == d && Texts.HEX[d] != '\r'
  {
  }

  lemma UnitReads(b: Byte, escape: bool, rest: string)
    ensures Unquote(Unit(b, escape) + rest) == [b] + Unquote(rest)
  {
    var s := Unit(b, escape) + rest;
    if escape || !Printable(b) {
      HexReads(b / 16);
      HexReads(b % 16);
      assert s[3..] == rest;
      assert b == b / 16 * 16 + b % 16;
    } else {
      assert s[1..] == rest;
    }
  }

  lemma BreakReads(rest: string)
    ensures Unquote(SOFT_BREAK + rest) == Unquote(rest) && Unquote(CRLF + rest) == [10] + Unquote(rest)
  {
    assert (SOFT_BREAK + rest)[3..] == rest && (CRLF + rest)[2..] == rest;
  }

  /** Quoted-printable text stands for the bytes that it was made of. */
  lemma {:induction false} QuotedReads(bytes: Bytes, escapes: set<nat>, i: nat, column: nat)
    requires i <= |bytes|
    ensures Unquote(Quoted(bytes, escapes, i, column)) == bytes[i..]
    decreases |bytes| - i
  {
    hide Unit;
    if i < |bytes| {
      hide Unquote;
      assert bytes[i..] == [bytes[i]] + bytes[i + 1..];
      var u := Unit(bytes[i], i in escapes);
      QuotedReads(bytes, escapes, i + 1, 0);
      QuotedReads(bytes, escapes, i + 1, |u|);
      QuotedReads(bytes, escapes, i + 1, column + |u|);
      BreakReads(Quoted(bytes, escapes, i + 1, 0));
      BreakReads(u + Quoted(bytes, escapes, i + 1, |u|));
      UnitReads(bytes[i], i in escapes, Quoted(bytes, escapes, i + 1, |u|));
      UnitReads(bytes[i], i in escapes, Quoted(bytes, escapes, i + 1, column + |u|));
    }
  }

  // ----- base64 in lines -----

  /** Lines of 76 characters, each with its line end, the last one too. */
  function Wrapped(s: string): string {
    if s == "" then "" else if |s| <= LINE_LIMIT then s + CRLF else s[..LINE_LIMIT] + CRLF + Wrapped(s[LINE_LIMIT..])
  }

  lemma {:induction false} WrappedLength(s: string)
    ensures |Wrapped(s)| == |s| + CeilDiv(|s|, 76) * 2
  {
    if |s| > LINE_LIMIT {
      WrappedLength(s[LINE_LIMIT..]);
      assert CeilDiv(|s|, 76) == CeilDiv(|s| - 76, 76) + 1;
    } else if s != "" {
      assert CeilDiv(|s|, 76) == 1;
    }
  }

  function AttachmentBytes(n: nat): nat {
    CeilDiv(n, 3) * 4 + CeilDiv(CeilDiv(n, 3) * 4, 76) * 2
  }

  /** The size computed for an attachment is exactly that of its encoding. */
  lemma AttachmentExactly(content: Bytes)
    ensures |Wrapped(Encode(content))| == AttachmentBytes(|content|)
  {
    hide Encode, Wrapped, DecodeLetters, Letters;
    EncodeReads(content);
    WrappedLength(Encode(content));
  }

  // ----- the bound -----

  const OVERHEAD: nat := 16 * 1024
  const PART_OVERHEAD: nat := 1024

  datatype Attachment = Attachment(content: Bytes, filename: string, contentType: string, contentId: string)
  datatype Header = Header(name: string, value: string)
  /** A message; a part that is absent is empty. */
  datatype Message = Message(subject: string, text: string, html: string, headers: seq<Header>, attachments: seq<Attachment>)

  function Ceiling(value: string): nat {
    |Utf8(value)| * 4
  }

  function HeaderBound(h: Header): nat {
    |Utf8(h.name)| + Ceiling(h.value) + 4
  }

  function AttachmentBound(a: Attachment): nat {
    AttachmentBytes(|a.content|) + Ceiling(a.filename) + Ceiling(a.contentType) + Ceiling(a.contentId) + PART_OVERHEAD
  }

  function HeadersBound(headers: seq<Header>): nat {
    if headers == [] then 0 else HeadersBound(headers[..|headers| - 1]) + HeaderBound(headers[|headers| - 1])
  }

  function AttachmentsBound(attachments: seq<Attachment>): nat {
    if attachments == [] then 0
    else AttachmentsBound(attachments[..|attachments| - 1]) + AttachmentBound(attachments[|attachments| - 1])
  }

  function Bound(m: Message): nat {
    OVERHEAD + Ceiling(m.subject) + Ceiling(m.text) + Ceiling(m.html) + HeadersBound(m.headers)
    + AttachmentsBound(m.attachments)
  }

  method EncodedMessageUpperBound(m: Message) returns (size: nat)
    ensures size == Bound(m)
  {
    hide Utf8, CeilDiv;
    size := OVERHEAD;
    size := size + Ceiling(m.subject);
    size := size + Ceiling(m.text);
    size := size + Ceiling(m.html);
    var texts := size;
    for i := 0 to |m.headers|
      invariant size == texts + HeadersBound(m.headers[..i])
    {
      assert m.headers[..i + 1][..i] == m.headers[..i];
      size := size + |Utf8(m.headers[i].name)| + Ceiling(m.headers[i].value) + 4;
    }
    assert m.headers[..|m.headers|] == m.headers;
    var headers := size;
    for i := 0 to |m.attachments|
      invariant size == headers + AttachmentsBound(m.attachments[..i])
    {
      var a := m.attachments[i];
      assert m.attachments[..i + 1][..i] == m.attachments[..i];
      var base64Bytes := CeilDiv(|a.content|, 3) * 4;
      var base64LineBreaks := CeilDiv(base64Bytes, 76) * 2;
      size := size + base64Bytes + base64LineBreaks;
      size := size + Ceiling(a.filename);
      size := size + Ceiling(a.contentType);
      size := size + Ceiling(a.contentId);
      size := size + PART_OVERHEAD;
    }
    assert m.attachments[..|m.attachments|] == m.attachments;
  }

  // ----- what is sent -----

  /** How a sender may encode a text: quoted-printable, escaping some bytes although it need not, or lines of base64. */
  datatype Encoding = QuotedPrintable(escapes: set<nat>) | Base64Lines
  type Style = string -> Encoding

  function Sent(value: string, style: Style): string {
    match style(value)
    case QuotedPrintable(escapes) => Quoted(Utf8(value), escapes, 0, 0)
    case Base64Lines => Wrapped(Encode(Utf8(value)))
  }

  function HeadersSent(headers: seq<Header>, style: Style): nat {
    if headers == [] then 0
    else
      var h := headers[|headers| - 1];
      HeadersSent(headers[..|headers| - 1], style) + |Utf8(h.name)| + |": "| + |Sent(h.value, style)| + |CRLF|
  }

  function AttachmentsSent(attachments: seq<Attachment>, style: Style): nat {
    if attachments == [] then 0
    else
      var a := attachments[|attachments| - 1];
      AttachmentsSent(attachments[..|attachments| - 1], style) + |Wrapped(Encode(a.content))|
      + |Sent(a.filename, style)| + |Sent(a.contentType, style)| + |Sent(a.contentId, style)|
  }

  /** The encoded size of everything in a message that is not boilerplate. */
  function SentSize(m: Message, style: Style): nat {
    |Sent(m.subject, style)| + |Sent(m.text, style)| + |Sent(m.html, style)| + HeadersSent(m.headers, style)
    + AttachmentsSent(m.attachments, style)
  }

  /** A single byte in base64 is the one text that outgrows its ceiling, by two characters. */
  function Spill(value: string, style: Style): nat {
    if style(value).Base64Lines? && |Utf8(value)| == 1 then 2 else 0
  }

  function HeadersSpill(headers: seq<Header>, style: Style): nat {
    if headers == [] then 0
    else HeadersSpill(headers[..|headers| - 1], style) + Spill(headers[|headers| - 1].value, style)
  }

  function AttachmentsSpill(attachments: seq<Attachment>, style: Style): nat {
    if attachments == [] then 0
    else
      var a := attachments[|attachments| - 1];
      AttachmentsSpill(attachments[..|attachments| - 1], style)
      + Spill(a.filename, style) + Spill(a.contentType, style) + Spill(a.contentId, style)
  }

  function MessageSpill(m: Message, style: Style): nat {
    Spill(m.subject, style) + Spill(m.text, style) + Spill(m.html, style) + HeadersSpill(m.headers, style)
    + AttachmentsSpill(m.attachments, style)
  }

  lemma LinesFit(n: nat)
    ensures n == 1 ==> AttachmentBytes(n) == 6
    ensures n != 1 ==> AttachmentBytes(n) <= 4 * n
  {
    if n > 3 {
      assert CeilDiv(n, 3) <= (n + 2) / 3;
      assert CeilDiv(CeilDiv(n, 3) * 4, 76) * 76 <= CeilDiv(n, 3) * 4 + 75;
    }
  }

  /** In whatever encoding, a text fits its ceiling exactly unless it is a single byte in base64. */
  lemma SentFits(value: string, style: Style)
    ensures |Sent(value, style)| <= Ceiling(value) + Spill(value, style)
    ensures |Sent(value, style)| <= Ceiling(value) <==> Spill(value, style) == 0
  {
    hide Encode, Wrapped, Quoted, Utf8, AttachmentBytes;
    match style(value)
    case QuotedPrintable(escapes) =>
      QuotedFits(Utf8(value), escapes);
    case Base64Lines =>
      AttachmentExactly(Utf8(value));
      LinesFit(|Utf8(value)|);
  }

  lemma {:induction false} HeadersFit(headers: seq<Header>, style: Style)
    ensures HeadersSent(headers, style) <= HeadersBound(headers) + HeadersSpill(headers, style)
    ensures HeadersSpill(headers, style) <= 2 * |headers|
  {
    hide Sent, Ceiling;
    if headers != [] {
      HeadersFit(headers[..|headers| - 1], style);
      SentFits(headers[|headers| - 1].value, style);
    }
  }

  lemma {:induction false} AttachmentsFit(attachments: seq<Attachment>, style: Style)
    ensures AttachmentsSent(attachments, style) + PART_OVERHEAD * |attachments|
            <= AttachmentsBound(attachments) + AttachmentsSpill(attachments, style)
    ensures AttachmentsSpill(attachments, style) <= 6 * |attachments|
  {
    hide Sent, Ceiling, AttachmentBytes, Encode, Wrapped;
    if attachments != [] {
      var a := attachments[|attachments| - 1];
      AttachmentsFit(attachments[..|attachments| - 1], style);
      AttachmentExactly(a.content);
      SentFits(a.filename, style);
      SentFits(a.contentType, style);
      SentFits(a.contentId, style);
    }
  }

  /** A message that is admitted fits the limit however each of its texts is encoded, and leaves room for the overhead
      that was reserved but for two characters for every single-byte text in base64. Those come out of the overhead
      unless there are more than 8189 headers. */
  lemma AdmittedFits(m: Message, limit: nat, style: Style)
    requires Bound(m) <= limit
    ensures SentSize(m, style) + OVERHEAD + PART_OVERHEAD * |m.attachments| <= limit + MessageSpill(m, style)
    ensures (forall value :: style(value).QuotedPrintable?) ==> MessageSpill(m, style) == 0
    ensures |m.headers| <= 8189 ==> SentSize(m, style) <= limit
  {
    hide Sent, Ceiling, HeadersSent, HeadersBound, AttachmentsSent, AttachmentsBound, HeadersSpill, AttachmentsSpill;
    SentFits(m.subject, style);
    SentFits(m.text, style);
    SentFits(m.html, style);
    HeadersFit(m.headers, style);
    AttachmentsFit(m.attachments, style);
    if forall value :: style(value).QuotedPrintable? {
      NoSpill(m.headers, m.attachments, style);
    }
  }

  lemma {:induction false} NoSpill(headers: seq<Header>, attachments: seq<Attachment>, style: Style)
    requires forall value :: style(value).QuotedPrintable?
    ensures HeadersSpill(headers, style) == 0 && AttachmentsSpill(attachments, style) == 0
    decreases |headers| + |attachments|
  {
    if headers != [] {
      NoSpill(headers[..|headers| - 1], attachments, style);
    } else if attachments != [] {
      NoSpill(headers, attachments[..|attachments| - 1], style);
    }
  }

  /** What is admitted fits in any encoding. */
  method AssertWithinRelayLimit(m: Message, limit: nat) returns (r: Result<()>)
    ensures r.Ok? <==> Bound(m) <= limit
    ensures r.Ok? && |m.headers| <= 8189 ==> forall style: Style :: SentSize(m, style) <= limit
  {
    hide Bound, SentSize;
    var size := EncodedMessageUpperBound(m);
    if size > limit {
      return Err("message exceeds the configured encoded-size limit");
    }
    forall style: Style ensures |m.headers| <= 8189 ==> SentSize(m, style) <= limit {
      AdmittedFits(m, limit, style);
    }
    return Ok(());
  }
}
