/** Printing upload bodies, and that reading them back loses nothing. */
module UploadFraming {
  import opened Results
  import opened Searching
  import opened WorkerUpload
  import M = ModuleManifest
  import Texts
  import Ordering

  // ----- header lines -----

  predicate NoBreak(s: string) {
    forall i :: 0 <= i < |s| ==> s[i] != '\r' && s[i] != '\n'
  }

  predicate Quotable(s: string) {
    s != "" && NoBreak(s) && '"' !in s
  }

  /** A line may hold either half of a line end, but no line end. */
  ghost predicate OneLine(s: string) {
    forall i: nat :: !At(s, i, "\r\n")
  }

  const NAMES := "content-disposition:" + " form-data; name=\""
  const FILES := "; filename=\""

  /** A disposition that names a part, and perhaps its file, in any capitalisation. */
  predicate DispositionOf(line: string, name: string, filename: Option<string>) {
    && Quotable(name) && StartsFold(line, NAMES)
    && var rest := line[|NAMES|..];
       if filename.None? then rest == name + "\""
       else
         && |rest| > |name| && rest[..|name| + 1] == name + "\""
         && Quotable(filename.value) && StartsFold(rest[|name| + 1..], FILES)
         && rest[|name| + 1..][|FILES|..] == filename.value + "\""
  }

  /** A line that gives a content type, up to the white space around it. */
  ghost predicate TypeLine(line: string, contentType: string) {
    StartsFold(line, "content-type:") && OneLine(line) && Texts.Trimmed(line[13..], contentType)
  }

  /** The header of a part is its disposition line alone, or that and one type line in either order. */
  ghost predicate HeadedBy(text: string, h: Headers, d: string, t: string) {
    && DispositionOf(d, h.name, h.filename)
    && if h.contentType.None? then text == d
       else TypeLine(t, h.contentType.value) && (text == d + "\r\n" + t || text == t + "\r\n" + d)
  }

  ghost predicate Heads(text: string, h: Headers) {
    exists d, t :: HeadedBy(text, h, d, t)
  }

  lemma LeadsPlain()
    ensures NAMES == NAME_LEAD && FILES == FILE_LEAD && |TYPE| == 13 && |NAMES| == 38 && |FILES| == 12
    ensures NAMES[..20] == DISPOSITION && |DISPOSITION| == 20
    ensures NoBreak(NAMES) && NoBreak(FILES)
  {
    hide NoBreak;
    NoBreakJoins("content-disposition:", " form-data; name=\"");
    DispositionIs();
    NameIs();
    FileIs();
    assert DISPOSITION == "content-disposition:";
  }

  lemma NoBreakJoins(a: string, b: string)
    requires NoBreak(a) && NoBreak(b)
    ensures NoBreak(a + b)
  {
  }

  lemma DispositionIs()
    ensures NoBreak("content-disposition:")
  {
  }

  lemma NameIs()
    ensures NoBreak(" form-data; name=\"")
  {
  }

  lemma FileIs()
    ensures NoBreak(FILES)
  {
  }

  lemma {:induction false} TakesExactly(text: string, s: string, rest: string)
    ensures TakeQuoted(text) == Some((s, rest)) <==> NoBreak(s) && '"' !in s && text == s + "\"" + rest
  {
    if text == "" || text[0] == '\r' || text[0] == '\n' || text[0] == '"' {
      if s == "" {
        assert s + "\"" + rest == "\"" + rest;
        assert text != "" ==> text == [text[0]] + text[1..];
      }
    } else if s != "" {
      TakesExactly(text[1..], s[1..], rest);
      assert s == [s[0]] + s[1..] && text == [text[0]] + text[1..];
      assert s + "\"" + rest == [s[0]] + (s[1..] + "\"" + rest);
    }
  }

  lemma DispositionExactly(line: string, name: string, filename: Option<string>)
    ensures ReadDisposition(line) == Some((name, filename)) <==> DispositionOf(line, name, filename)
  {
    hide TakeQuoted, StartsFold, NoBreak;
    LeadsPlain();
    if StartsFold(line, NAMES) {
      StartsLong(line, NAMES);
      var rest := line[|NAMES|..];
      Taken(rest);
      if filename.None? {
        TakesExactly(rest, name, "");
        assert name + "\"" + "" == name + "\"";
      } else {
        var file := filename.value;
        if |rest| > |name| {
          var after := rest[|name| + 1..];
          assert rest == rest[..|name| + 1] + after;
          TakesExactly(rest, name, after);
          if StartsFold(after, FILES) {
            StartsLong(after, FILES);
            TakesExactly(after[|FILES|..], file, "");
            assert file + "\"" + "" == file + "\"";
          }
        }
      }
    }
  }

  lemma StartsLong(line: string, lead: string)
    requires StartsFold(line, lead)
    ensures |line| >= |lead|
  {
  }

  /** What is taken up to a quote stands in front of it. */
  lemma Taken(text: string)
    ensures TakeQuoted(text).Some? ==>
      var (s, rest) := TakeQuoted(text).value;
      && NoBreak(s) && '"' !in s && |s| < |text| && text[..|s| + 1] == s + "\"" && rest == text[|s| + 1..]
  {
    hide TakeQuoted;
    if TakeQuoted(text).Some? {
      var (s, rest) := TakeQuoted(text).value;
      TakesExactly(text, s, rest);
    }
  }

  /** Every line that text is split into is one line, and they are the text. */
  lemma {:induction false} SplitKeeps(text: string)
    ensures var r := SplitLines(text);
      && (forall k :: 0 <= k < |r| ==> OneLine(r[k]))
      && (|r| == 1 ==> text == r[0])
      && (|r| == 2 ==> text == r[0] + "\r\n" + r[1])
      && |r| >= 1
    decreases |text|
  {
    hide IndexOf, At;
    var i := IndexOf(text, CRLF, 0);
    if i != -1 {
      FoundSplits(text, i);
      SplitKeeps(text[i + 2..]);
    }
  }

  lemma FoundSplits(text: string, i: nat)
    requires i == IndexOf(text, CRLF, 0)
    ensures i + 2 <= |text| && text == text[..i] + "\r\n" + text[i + 2..] && OneLine(text[..i])
  {
    hide IndexOf, OneLine;
    FrontIsOneLine(text, i);
    assert text[i..i + 2] == "\r\n";
    assert text == text[..i] + text[i..i + 2] + text[i + 2..];
  }

  lemma FrontIsOneLine(text: string, i: nat)
    requires i <= |text| && forall j: nat :: j < i ==> !At(text, j, CRLF)
    ensures OneLine(text[..i])
  {
    hide At;
    assert text[0..i] == text[..i];
    forall j: nat ensures !At(text[..i], j, "\r\n") {
      AtSlice(text, 0, i, j, CRLF);
      AtFits(text[..i], j, CRLF);
    }
  }

  lemma AtFits(s: string, i: nat, pattern: string)
    ensures At(s, i, pattern) ==> i + |pattern| <= |s|
  {
  }

  lemma OneLineAlone(s: string)
    requires OneLine(s)
    ensures SplitLines(s) == [s]
  {
    hide IndexOf;
  }

  /** Where a line ends in front of a line end. */
  lemma LineClear(a: string, after: string)
    requires OneLine(a)
    ensures Clear(a, CRLF, CRLF + after)
  {
    NoEarlyOverlap(a, CRLF, after);
  }

  lemma TwoLines(a: string, b: string)
    requires OneLine(a) && OneLine(b)
    ensures SplitLines(a + "\r\n" + b) == [a, b]
  {
    hide IndexOf, At, Clear, OneLine;
    LineClear(a, b);
    var text := a + "\r\n" + b;
    FoundAt("", a, CRLF, b);
    assert "" + a + CRLF + b == text;
    assert text[..|a|] == a && text[|a| + 2..] == b;
    OneLineAlone(b);
  }

  lemma PlainIsOneLine(s: string)
    requires NoBreak(s)
    ensures OneLine(s)
  {
    forall i: nat ensures !At(s, i, "\r\n") {
      AtReads(s, i, "\r\n", 0);
    }
  }

  lemma DispositionPlain(d: string, name: string, filename: Option<string>)
    requires DispositionOf(d, name, filename)
    ensures NoBreak(d) && StartsFold(d, DISPOSITION) && !StartsFold(d, TYPE) && d != "" && OneLine(d)
  {
    LeadsPlain();
    assert DISPOSITION[8] == 'd' && TYPE[8] == 't';
    StartPlain(d, NAMES);
    var rest := d[|NAMES|..];
    if filename.Some? {
      StartPlain(rest[|name| + 1..], FILES);
      assert rest == rest[..|name| + 1] + rest[|name| + 1..];
    }
    assert NoBreak(rest);
    assert d == d[..|NAMES|] + rest;
    forall i | 0 <= i < 20 ensures Texts.LowerChar(d[i]) == DISPOSITION[i] {
      assert NAMES[i] == NAMES[..20][i];
    }
    assert Texts.LowerChar(d[8]) == 'd';
    PlainIsOneLine(d);
  }

  lemma StartPlain(line: string, lead: string)
    requires StartsFold(line, lead) && NoBreak(lead)
    ensures NoBreak(line[..|lead|])
  {
    forall i | 0 <= i < |lead| ensures line[i] != '\r' && line[i] != '\n' {
      assert Texts.LowerChar(line[i]) == lead[i];
    }
  }

  lemma NotBoth(line: string)
    ensures !StartsFold(line, DISPOSITION) || !StartsFold(line, TYPE)
  {
    assert DISPOSITION[8] == 'd' && TYPE[8] == 't';
  }

  lemma ThoseOf(a: string, b: string, lead: string)
    ensures Those([a], lead) == if StartsFold(a, lead) then [a] else []
    ensures Those([a, b], lead) ==
            (if StartsFold(a, lead) then [a] else []) + if StartsFold(b, lead) then [b] else []
  {
    hide StartsFold;
    assert [a, b][1..] == [b] && [b][1..] == [] && [a][1..] == [];
    assert Those([b], lead) == if StartsFold(b, lead) then [b] else [];
  }

  lemma {:induction false} ThoseFew(lines: seq<string>, lead: string)
    ensures |Those(lines, lead)| <= |lines|
  {
    if lines != [] {
      ThoseFew(lines[1..], lead);
    }
  }

  lemma TypeReads(t: string, contentType: string)
    requires OneLine(t)
    ensures TypeLine(t, contentType) <==> StartsFold(t, TYPE) && TypeOf(t) == contentType
  {
    hide OneLine, Texts.Trimmed, Texts.TrimStart, Texts.TrimEnd;
    assert TYPE == "content-type:" && |TYPE| == 13;
    if StartsFold(t, TYPE) {
      Texts.TrimExactly(t[13..], contentType);
    }
  }

  lemma HeadsRead(text: string, h: Headers, d: string, t: string)
    requires HeadedBy(text, h, d, t)
    ensures ReadHeaders(text) == Ok(h)
  {
    hide StartsFold, ReadDisposition, TypeOf, Trim, SplitLines, OneLine, DispositionOf, TypeLine;
    DispositionExactly(d, h.name, h.filename);
    DispositionPlain(d, h.name, h.filename);
    ThoseOf(d, t, DISPOSITION);
    ThoseOf(d, t, TYPE);
    if h.contentType.None? {
      OneLineAlone(d);
    } else {
      TypeIsOneLine(t, h.contentType.value);
      TypeReads(t, h.contentType.value);
      NotBoth(t);
      ThoseOf(t, d, DISPOSITION);
      ThoseOf(t, d, TYPE);
      TwoLines(d, t);
      TwoLines(t, d);
    }
  }

  lemma TypeIsOneLine(t: string, contentType: string)
    requires TypeLine(t, contentType)
    ensures OneLine(t)
  {
  }

  lemma ReadHeads(text: string, h: Headers)
    requires ReadHeaders(text) == Ok(h)
    ensures Heads(text, h)
  {
    hide StartsFold, ReadDisposition, TypeOf, Trim, SplitLines, OneLine, DispositionOf, TypeLine, HeadedBy;
    var lines := SplitLines(text);
    SplitKeeps(text);
    ThoseFew(lines, DISPOSITION);
    ThoseFew(lines, TYPE);
    if |lines| == 1 {
      var d := lines[0];
      assert lines == [d];
      ThoseOf(d, d, DISPOSITION);
      ThoseOf(d, d, TYPE);
      HeadsAre(text, h, d, d);
    } else {
      var a, b := lines[0], lines[1];
      assert lines == [a, b];
      ThoseOf(a, b, DISPOSITION);
      ThoseOf(a, b, TYPE);
      NotBoth(a);
      NotBoth(b);
      if StartsFold(a, DISPOSITION) {
        HeadsAre(text, h, a, b);
      } else {
        HeadsAre(text, h, b, a);
      }
    }
  }

  lemma HeadsAre(text: string, h: Headers, d: string, t: string)
    requires ReadDisposition(d) == Some((h.name, h.filename))
    requires if h.contentType.None? then text == d
             else StartsFold(t, TYPE) && OneLine(t) && TypeOf(t) == h.contentType.value
                  && (text == d + "\r\n" + t || text == t + "\r\n" + d)
    ensures Heads(text, h)
  {
    hide StartsFold, ReadDisposition, TypeOf, OneLine, DispositionOf, TypeLine;
    DispositionExactly(d, h.name, h.filename);
    if h.contentType.Some? {
      TypeReads(t, h.contentType.value);
    }
    assert HeadedBy(text, h, d, t);
  }

  /** Header text is read exactly when it is one disposition line and at most one type line, in either order
      and in any capitalisation, and as what they say. */
  lemma HeadersExactly(text: string, h: Headers)
    ensures ReadHeaders(text) == Ok(h) <==> Heads(text, h)
  {
    hide ReadHeaders, HeadedBy;
    if ReadHeaders(text) == Ok(h) {
      ReadHeads(text, h);
    }
    if d, t :| HeadedBy(text, h, d, t) {
      HeadsRead(text, h, d, t);
    }
  }

  // ----- printing -----

  /** A part of a body: its header text, what that says, and its content. */
  datatype Section = Section(header: string, headers: Headers, content: string)

  function PrintPart(p: Section, delimiter: string): string {
    "\r\n" + p.header + "\r\n\r\n" + p.content + delimiter
  }

  function PrintParts(parts: seq<Section>, delimiter: string): string {
    if parts == [] then "" else PrintPart(parts[0], delimiter) + PrintParts(parts[1..], delimiter)
  }

  function PrintUpload(boundary: string, parts: seq<Section>, tail: string): string {
    boundary + PrintParts(parts, "\r\n" + boundary) + "--" + tail
  }

  /** The content of a part may hold anything but its own end. */
  ghost predicate Free(content: string, delimiter: string) {
    forall i :: 0 <= i <= |content| ==> !At(content, i, delimiter)
  }

  ghost predicate LegalPart(p: Section, delimiter: string) {
    Heads(p.header, p.headers) && Free(p.content, delimiter)
  }

  ghost predicate LegalParts(parts: seq<Section>, delimiter: string) {
    forall i :: 0 <= i < |parts| ==> LegalPart(parts[i], delimiter)
  }

  predicate BoundaryCode(c: int) {
    c == 0x2D || 0x30 <= c <= 0x39 || 0x41 <= c <= 0x5A || 0x61 <= c <= 0x7A
  }

  /** Two hyphens and up to two hundred letters, digits and hyphens. */
  predicate BoundaryText(line: string) {
    && 3 <= |line| <= 202 && line[0] == '-' && line[1] == '-'
    && forall i :: 0 <= i < |line| ==> BoundaryCode(line[i] as int)
  }

  lemma BoundaryExactly(line: string)
    ensures BoundaryLine(line) <==> BoundaryText(line)
  {
    assert |line| >= 2 ==> line[..2] == [line[0], line[1]];
  }

  lemma BlankIsTwo(s: string, i: nat)
    ensures At(s, i, BLANK) ==> At(s, i, CRLF) && At(s, i + 2, CRLF)
  {
    if At(s, i, BLANK) {
      assert s[i..i + 2] == s[i..i + 4][..2] && s[i + 2..i + 4] == s[i..i + 4][2..];
    }
  }

  lemma LineEnds(d: string, after: string)
    requires OneLine(d)
    ensures forall i :: 0 <= i < |d| ==> !At(d + (BLANK + after), i, CRLF)
  {
    hide At, OneLine;
    LineClear(d, CRLF + after);
    assert CRLF + (CRLF + after) == BLANK + after;
  }

  lemma OneLineEnds(d: string, after: string)
    requires OneLine(d)
    ensures Clear(d, BLANK, BLANK + after)
  {
    hide At, OneLine;
    LineEnds(d, after);
    forall i | 0 <= i < |d| ensures !At(d + (BLANK + after), i, BLANK) {
      BlankIsTwo(d + (BLANK + after), i);
    }
  }

  lemma TwoLinesEnd(a: string, b: string, after: string)
    requires OneLine(a) && OneLine(b) && b != "" && b[0] != '\n'
    ensures Clear(a + "\r\n" + b, BLANK, BLANK + after)
  {
    hide At, OneLine;
    var h := a + "\r\n" + b;
    var s, rest := h + (BLANK + after), b + (BLANK + after);
    assert s == a + (CRLF + rest);
    assert s == (a + CRLF) + rest;
    LineClear(a, rest);
    LineEnds(b, after);
    forall i | 0 <= i < |h| ensures !At(s, i, BLANK) {
      BlankIsTwo(s, i);
      AtReads(s, i, CRLF, 0);
      if i == |a| {
        AtShift(a + CRLF, rest, 0, CRLF);
      } else if i > |a| + 1 {
        AtShift(a + CRLF, rest, i - |a| - 2, CRLF);
      }
    }
  }

  lemma Fronts(line: string, lead: string)
    requires StartsFold(line, lead) && lead != "" && lead[0] == 'c'
    ensures line != "" && line[0] != '\n'
  {
    assert Texts.LowerChar(line[0]) == 'c';
  }

  /** The blank line behind the headers is the first one. */
  lemma HeadersEnd(text: string, h: Headers, after: string)
    requires Heads(text, h)
    ensures Clear(text, BLANK, BLANK + after)
  {
    hide At, OneLine, DispositionOf, TypeLine, StartsFold, Clear;
    var d, t :| HeadedBy(text, h, d, t);
    DispositionPlain(d, h.name, h.filename);
    if h.contentType.None? {
      OneLineEnds(d, after);
    } else {
      TypeIsOneLine(t, h.contentType.value);
      TypeReads(t, h.contentType.value);
      Fronts(d, DISPOSITION);
      Fronts(t, TYPE);
      TwoLinesEnd(d, t, after);
      TwoLinesEnd(t, d, after);
    }
  }

  // ----- the round trip -----

  /** What the parts of a body come to, read one after the other. */
  function Collect(parts: seq<Section>, count: nat, s: State, o: Oracle): Result<State>
    decreases |parts|
  {
    if parts == [] then Ok(s)
    else if count + 1 > PART_LIMIT then Err("framing invalid")
    else if |parts[0].header| > HEADER_LIMIT then Err("headers invalid")
    else
      var next :- Advance(s, parts[0].headers, parts[0].content, o);
      Collect(parts[1..], count + 1, next, o)
  }

  /** A delimiter starts a line, and nothing else in it does. */
  lemma DelimiterPlain(boundary: string)
    requires BoundaryLine(boundary)
    ensures var d := CRLF + boundary; d != "" && forall k :: 0 < k < |d| ==> d[k] != d[0]
  {
    var d := CRLF + boundary;
    forall k | 0 < k < |d| ensures d[k] != d[0] {
      if k >= 2 {
        assert d[k] == boundary[k - 2];
      }
    }
  }

  lemma Middle(x: string, y: string, z: string)
    ensures (x + y + z)[|x|..|x| + |y|] == y && At(x + y + z, |x|, y)
  {
  }

  lemma Assoc(a: string, b: string, c: string)
    ensures (a + b) + c == a + (b + c)
  {
  }

  /** Text in front of five pieces stands in front of the first. */
  lemma Spread(a: string, b: string, c: string, d: string, e: string, f: string)
    ensures a + (b + c + d + e + f) == a + b + c + d + e + f
  {
    Assoc(a, b + c + d + e, f);
    Assoc(a, b + c + d, e);
    Assoc(a, b + c, d);
    Assoc(a, b, c);
  }

  lemma HeaderFound(before: string, h: string, headers: Headers, rest: string)
    requires Heads(h, headers)
    ensures var b := before + CRLF + h + BLANK + rest;
      var headerEnd := |before| + 2 + |h|;
      && At(b, |before|, CRLF)
      && IndexOf(b, BLANK, |before| + 2) == headerEnd
      && b[|before| + 2..headerEnd] == h
  {
    hide IndexOf, Clear, At, Heads;
    HeadersEnd(h, headers, rest);
    FoundAt(before + CRLF, h, BLANK, rest);
    Middle(before + CRLF, h, BLANK + rest);
    Assoc(before + CRLF + h, BLANK, rest);
    Middle(before, CRLF, h + (BLANK + rest));
    Assoc(before + CRLF, h, BLANK + rest);
  }

  lemma ContentFound(front: string, p: Section, boundary: string, after: string)
    requires BoundaryLine(boundary) && LegalPart(p, CRLF + boundary)
    ensures var d := CRLF + boundary;
      var b := front + p.content + d + after;
      IndexOf(b, d, |front|) == |front| + |p.content| && b[|front|..|front| + |p.content|] == p.content
  {
    hide IndexOf, Clear, At, LegalPart, BoundaryLine;
    var d := CRLF + boundary;
    DelimiterPlain(boundary);
    ContentClear(p, d, after);
    FoundAt(front, p.content, d, after);
    Middle(front, p.content, d + after);
    Assoc(front + p.content, d, after);
  }

  lemma PartShape(before: string, p: Section, d: string, after: string)
    ensures before + PrintPart(p, d) + after == before + CRLF + p.header + BLANK + p.content + d + after
    ensures before + PrintPart(p, d) + after == before + CRLF + p.header + BLANK + (p.content + d + after)
  {
        Spread(before, CRLF, p.header, BLANK, p.content, d);
  }

  lemma PartShapeJoined(before: string, p: Section, d: string, after: string)
    ensures before + PrintPart(p, d) + after == before + CRLF + p.header + BLANK + (p.content + d + after)
  {
    hide PrintPart;
    PartShape(before, p, d, after);
    var front := before + CRLF + p.header + BLANK;
    Assoc(front, p.content, d);
    Assoc(front, p.content + d, after);
  }

  lemma NoDashes(b: string, i: nat)
    requires At(b, i, CRLF)
    ensures !At(b, i, "--")
  {
    AtReads(b, i, CRLF, 0);
    AtReads(b, i, "--", 0);
  }

  lemma PartHeads(p: Section, d: string)
    requires LegalPart(p, d)
    ensures Heads(p.header, p.headers) && ReadHeaders(p.header) == Ok(p.headers)
  {
    hide Heads, ReadHeaders, Free;
    HeadersExactly(p.header, p.headers);
  }

  lemma PartHead(before: string, p: Section, d: string, after: string)
    requires LegalPart(p, d)
    ensures var b := before + PrintPart(p, d) + after;
      var headerEnd := |before| + 2 + |p.header|;
      && At(b, |before|, CRLF) && !At(b, |before|, "--")
      && IndexOf(b, BLANK, |before| + 2) == headerEnd
      && b[|before| + 2..headerEnd] == p.header
  {
    hide IndexOf, LegalPart, At, PrintPart, Heads, ReadHeaders;
    PartShapeJoined(before, p, d, after);
    PartHeads(p, d);
    HeaderFound(before, p.header, p.headers, p.content + d + after);
    NoDashes(before + PrintPart(p, d) + after, |before|);
  }

  lemma PartBody(before: string, p: Section, boundary: string, after: string)
    requires BoundaryLine(boundary) && LegalPart(p, CRLF + boundary)
    ensures var d := CRLF + boundary;
      var b := before + PrintPart(p, d) + after;
      var start := |before| + 2 + |p.header| + 4;
      IndexOf(b, d, start) == start + |p.content| && b[start..start + |p.content|] == p.content
  {
    hide IndexOf, BoundaryLine, LegalPart, At, PrintPart;
    PartShape(before, p, CRLF + boundary, after);
    ContentFound(before + CRLF + p.header + BLANK, p, boundary, after);
  }

  lemma ContentClear(p: Section, d: string, after: string)
    requires LegalPart(p, d) && d != "" && forall k :: 0 < k < |d| ==> d[k] != d[0]
    ensures Clear(p.content, d, d + after)
  {
    hide Clear;
    NoEarlyOverlap(p.content, d, after);
  }

  /** Reading printed parts gives what the parts come to, and ends behind the last of them. */
  lemma {:induction false} PartsRead(before: string, parts: seq<Section>, boundary: string, after: string,
                                     count: nat, s: State, o: Oracle)
    requires BoundaryLine(boundary) && LegalParts(parts, CRLF + boundary) && At(after, 0, "--")
    ensures var d := CRLF + boundary;
      ParseParts(before + PrintParts(parts, d) + after, d, |before|, count, s, o) ==
      var r := Collect(parts, count, s, o);
      if r.Err? then r.PropagateFailure() else Ok((r.value, |before| + |PrintParts(parts, d)|))
    decreases |parts|
  {
    hide IndexOf, PrintPart, Advance, LegalPart, Heads, BoundaryLine, At, ReadHeaders;
    var d := CRLF + boundary;
    var b := before + PrintParts(parts, d) + after;
    if parts == [] {
      assert b == before + after;
      AtShift(before, after, 0, "--");
    } else {
      var p, rest := parts[0], PrintParts(parts[1..], d) + after;
      assert b == before + PrintPart(p, d) + rest;
      PartHead(before, p, d, rest);
      PartBody(before, p, boundary, rest);
      PartHeads(p, d);
      var next := Advance(s, p.headers, p.content, o);
      PartLength(p, d);
      if count + 1 <= PART_LIMIT && |p.header| <= HEADER_LIMIT && next.Ok? {
        assert b == (before + PrintPart(p, d)) + PrintParts(parts[1..], d) + after;
        assert LegalParts(parts[1..], d);
        PartsRead(before + PrintPart(p, d), parts[1..], boundary, after, count + 1, next.value, o);
      }
    }
  }

  lemma PartLength(p: Section, d: string)
    ensures |PrintPart(p, d)| == 2 + |p.header| + 4 + |p.content| + |d|
  {
  }

  lemma FirstLineFound(boundary: string, after: string)
    requires BoundaryLine(boundary)
    ensures FirstLine(boundary + CRLF + after) == boundary
  {
    hide IndexOf;
    var b := boundary + CRLF + after;
    var head := if |b| <= 256 then b else b[..256];
    forall i | 0 <= i < |boundary| ensures !At(head, i, CRLF) {
      AtReads(head, i, CRLF, 0);
      assert BoundaryChar(boundary[i]);
    }
    assert At(head, |boundary|, CRLF);
    FirstIs(head, CRLF, 0, |boundary|);
    assert head[..|boundary|] == boundary;
  }

  /** Any upload that prints within the size limit reads back as what its parts come to: the same
      modules in the same order, source maps noticed, and the same errors for illegal parts. */
  lemma UploadReadsBack(boundary: string, parts: seq<Section>, tail: string, hasAssets: bool, o: Oracle)
    requires BoundaryLine(boundary) && parts != [] && LegalParts(parts, CRLF + boundary)
    requires |PrintUpload(boundary, parts, tail)| <= SIZE_LIMIT
    ensures Parsed(PrintUpload(boundary, parts, tail), hasAssets, o) ==
            var r := Collect(parts, 0, START, o);
            if r.Err? then r.PropagateFailure() else Finish(r.value, tail, hasAssets)
  {
    hide IndexOf, PrintPart, Collect, ParseParts, LegalParts, BoundaryLine, Finish;
    var d := CRLF + boundary;
    var b := PrintUpload(boundary, parts, tail);
    var after := "--" + tail;
    assert b == boundary + PrintParts(parts, d) + after;
    StartsLine(parts, d);
    assert b == boundary + CRLF + (PrintParts(parts, d)[2..] + after);
    FirstLineFound(boundary, PrintParts(parts, d)[2..] + after);
    assert after[..2] == "--";
    PartsRead(boundary, parts, boundary, after, 0, START, o);
    assert b[|boundary| + |PrintParts(parts, d)| + 2..] == tail;
  }

  lemma StartsLine(parts: seq<Section>, d: string)
    requires parts != []
    ensures |PrintParts(parts, d)| >= 2 && PrintParts(parts, d)[..2] == CRLF
  {
  }

  // ----- what an accepted body holds -----

  predicate IsMetadata(p: Section) {
    p.headers.name == "metadata"
  }

  predicate IsMap(p: Section) {
    !IsMetadata(p) && p.headers.contentType == Some("application/source-map")
  }

  /** The modules of a body: its parts but for the metadata and the source maps. */
  function ModulesOf(parts: seq<Section>, o: Oracle): seq<M.ModuleDigest> {
    if parts == [] then []
    else
      var p := parts[0];
      (if IsMetadata(p) || IsMap(p) || p.headers.contentType.None? then []
       else [M.ModuleDigest(p.headers.name, p.headers.contentType.value, |p.content|, (o.sha)(p.content))])
      + ModulesOf(parts[1..], o)
  }

  predicate MapsIn(parts: seq<Section>) {
    exists i :: 0 <= i < |parts| && IsMap(parts[i])
  }

  function MetadataCount(parts: seq<Section>): nat {
    if parts == [] then 0 else (if IsMetadata(parts[0]) then 1 else 0) + MetadataCount(parts[1..])
  }

  /** A part as Wrangler writes one: metadata that declares a module to start from, or a typed file. */
  predicate Usable(p: Section, o: Oracle) {
    && |p.header| <= 16384
    && if IsMetadata(p)
       then p.headers.filename.None? && (o.json)(p.content).Some?
            && (o.json)(p.content).value.mainModule.Some? && !(o.json)(p.content).value.bodyPart
       else p.headers.filename.Some? && p.headers.contentType.Some?
  }

  /** The module that a metadata part starts from. */
  function MainOf(p: Section, o: Oracle): string {
    var m := (o.json)(p.content);
    if m.Some? && m.value.mainModule.Some? then m.value.mainModule.value else ""
  }

  /** What the parts of an upload must be for it to be accepted. */
  ghost predicate Uploadable(parts: seq<Section>, tail: string, o: Oracle) {
    && |parts| <= 513 && (tail == "" || tail == "\r\n")
    && (forall i :: 0 <= i < |parts| ==> Usable(parts[i], o))
    && MetadataCount(parts) == 1
    && forall i :: 0 <= i < |parts| && IsMetadata(parts[i]) ==> M.Acceptable(MainOf(parts[i], o), ModulesOf(parts, o))
  }

  lemma AdvanceExactly(s: State, p: Section, o: Oracle)
    requires |p.header| <= HEADER_LIMIT
    ensures var r := Advance(s, p.headers, p.content, o);
      && (r.Ok? <==> Usable(p, o) && (IsMetadata(p) ==> s.metadata.None?))
      && (r.Ok? ==>
            && r.value.modules == s.modules + ModulesOf([p], o)
            && (r.value.sourceMaps <==> s.sourceMaps || IsMap(p))
            && r.value.metadata == if IsMetadata(p) then (o.json)(p.content) else s.metadata)
  {
        assert [p][1..] == [];
    assert ModulesOf([p][1..], o) == [];
  }

  lemma {:induction false} CountTells(parts: seq<Section>)
    ensures MetadataCount(parts) == 0 <==> forall i :: 0 <= i < |parts| ==> !IsMetadata(parts[i])
  {
    if parts != [] {
      CountTells(parts[1..]);
      assert forall i :: 0 < i < |parts| ==> parts[i] == parts[1..][i - 1];
    }
  }

  /** Parts are collected exactly when each is usable, they are not too many, and at most one is metadata. */
  lemma {:induction false} CollectExactly(parts: seq<Section>, count: nat, s: State, o: Oracle)
    ensures Collect(parts, count, s, o).Ok? <==>
            && (parts == [] || count + |parts| <= PART_LIMIT)
            && (forall i :: 0 <= i < |parts| ==> Usable(parts[i], o))
            && MetadataCount(parts) + (if s.metadata.Some? then 1 else 0) <= 1
    decreases |parts|
  {
    hide Advance, Usable;
    if parts != [] && count + 1 <= PART_LIMIT && |parts[0].header| <= HEADER_LIMIT {
      AdvanceExactly(s, parts[0], o);
      var next := Advance(s, parts[0].headers, parts[0].content, o);
      assert forall i :: 0 < i < |parts| ==> parts[i] == parts[1..][i - 1];
      if next.Ok? {
        MetadataStays(s, parts[0], o);
        CollectExactly(parts[1..], count + 1, next.value, o);
      }
    } else if parts != [] && count + 1 <= PART_LIMIT {
      assert !Usable(parts[0], o) by {
        TooLong(parts[0], o);
      }
    }
  }

  lemma TooLong(p: Section, o: Oracle)
    requires |p.header| > HEADER_LIMIT
    ensures !Usable(p, o)
  {
  }

  /** Metadata that advances the state is there afterwards. */
  lemma MetadataStays(s: State, p: Section, o: Oracle)
    requires Advance(s, p.headers, p.content, o).Ok?
    ensures Advance(s, p.headers, p.content, o).value.metadata.Some? <==> s.metadata.Some? || IsMetadata(p)
  {
  }

  lemma {:induction false} CollectGives(parts: seq<Section>, count: nat, s: State, o: Oracle)
    requires Collect(parts, count, s, o).Ok?
    ensures var r := Collect(parts, count, s, o).value;
      && r.modules == s.modules + ModulesOf(parts, o)
      && (r.sourceMaps <==> s.sourceMaps || MapsIn(parts))
      && (r.metadata.Some? <==> s.metadata.Some? || MetadataCount(parts) > 0)
      && (s.metadata.Some? ==> r.metadata == s.metadata)
      && (forall i :: 0 <= i < |parts| && IsMetadata(parts[i]) ==> r.metadata == (o.json)(parts[i].content))
    decreases |parts|
  {
    hide Advance, Usable;
    if parts != [] {
      var p, rest := parts[0], parts[1..];
      AdvanceExactly(s, p, o);
      MetadataStays(s, p, o);
      var next := Advance(s, p.headers, p.content, o).value;
      CollectGives(rest, count + 1, next, o);
      CollectExactly(rest, count + 1, next, o);
      CountTells(rest);
      ModulesCons(parts, o);
      assert forall i :: 0 < i < |parts| ==> parts[i] == rest[i - 1];
    }
  }

  lemma ModulesCons(parts: seq<Section>, o: Oracle)
    requires parts != []
    ensures ModulesOf(parts, o) == ModulesOf([parts[0]], o) + ModulesOf(parts[1..], o)
  {
    assert [parts[0]][1..] == [];
    assert ModulesOf([parts[0]][1..], o) == [];
  }

  lemma FinishExactly(parts: seq<Section>, s: State, tail: string, hasAssets: bool, o: Oracle)
    requires Collect(parts, 0, START, o) == Ok(s)
    ensures Finish(s, tail, hasAssets).Ok? <==> parts != [] && Uploadable(parts, tail, o)
  {
    hide M.Acceptable, Advance, Usable, ModulesOf;
    CollectExactly(parts, 0, START, o);
    CollectGives(parts, 0, START, o);
    CountTells(parts);
    assert [] + ModulesOf(parts, o) == ModulesOf(parts, o);
    if MetadataCount(parts) == 1 {
      var i :| 0 <= i < |parts| && IsMetadata(parts[i]);
      UsableMain(parts[i], o);
    }
  }

  lemma UsableMain(p: Section, o: Oracle)
    requires Usable(p, o) && IsMetadata(p)
    ensures (o.json)(p.content).Some? && (o.json)(p.content).value.mainModule == Some(MainOf(p, o))
  {
  }

  lemma TooLarge(b: string, hasAssets: bool, o: Oracle)
    requires |b| > SIZE_LIMIT
    ensures Parsed(b, hasAssets, o).Err?
  {
  }

  /** What an upload declares of its static assets, in its metadata or beside it. */
  predicate DeclaresAssets(p: Section, o: Oracle) {
    IsMetadata(p) && (o.json)(p.content).Some?
    && ((o.json)(p.content).value.assets || (o.json)(p.content).value.keepAssets)
  }

  /** What is read of parts that can be uploaded. */
  ghost predicate Reads(u: Upload, parts: seq<Section>, hasAssets: bool, o: Oracle) {
    && multiset(u.manifest.modules) == multiset(ModulesOf(parts, o))
    && Ordering.Ascending(u.manifest.modules, M.NameKey)
    && (u.staticAssets <==> hasAssets || exists i :: 0 <= i < |parts| && DeclaresAssets(parts[i], o))
    && (u.sourceMaps <==> MapsIn(parts))
    && forall i :: 0 <= i < |parts| && IsMetadata(parts[i]) ==> u.manifest.mainModule == MainOf(parts[i], o)
  }

  lemma FinishReads(parts: seq<Section>, s: State, tail: string, hasAssets: bool, o: Oracle)
    requires Collect(parts, 0, START, o) == Ok(s) && Finish(s, tail, hasAssets).Ok?
    ensures Reads(Finish(s, tail, hasAssets).value, parts, hasAssets, o)
  {
    hide M.Canonical, Advance, Usable, ModulesOf, Collect, MapsIn;
    CollectExactly(parts, 0, START, o);
    CollectGives(parts, 0, START, o);
    CountTells(parts);
    var m :| 0 <= m < |parts| && IsMetadata(parts[m]);
    assert s.metadata == (o.json)(parts[m].content);
    var assets := s.metadata.value.assets || s.metadata.value.keepAssets;
    assert assets ==> DeclaresAssets(parts[m], o);
    assert (exists i :: 0 <= i < |parts| && DeclaresAssets(parts[i], o)) ==> assets;
    assert [] + ModulesOf(parts, o) == ModulesOf(parts, o);
    M.CanonicalHolds(s.metadata.value.mainModule.value, s.modules);
    FinishGives(s, tail, hasAssets);
  }

  lemma FinishGives(s: State, tail: string, hasAssets: bool)
    requires Finish(s, tail, hasAssets).Ok?
    ensures s.metadata.Some? && s.metadata.value.mainModule.Some?
    ensures var u := Finish(s, tail, hasAssets).value;
      && M.Canonical(s.metadata.value.mainModule.value, s.modules) == Ok(u.manifest)
      && u.manifest.mainModule == s.metadata.value.mainModule.value
      && (u.staticAssets <==> hasAssets || s.metadata.value.assets || s.metadata.value.keepAssets)
      && u.sourceMaps == s.sourceMaps
  {
    hide M.Acceptable;
  }

  /** An upload within the size limit is accepted exactly when its parts are usable, one of them metadata, and their
      modules make a manifest. It then reads back as exactly those modules, in the order of their names, with source
      maps dropped and noticed, and with static assets where the metadata or the caller tells of some. */
  lemma UploadKeepsModules(boundary: string, parts: seq<Section>, tail: string, hasAssets: bool, o: Oracle)
    requires BoundaryLine(boundary) && parts != [] && LegalParts(parts, CRLF + boundary)
    ensures var b := PrintUpload(boundary, parts, tail); var r := Parsed(b, hasAssets, o);
      && (r.Ok? <==> |b| <= 67108864 && Uploadable(parts, tail, o))
      && (r.Ok? ==> Reads(r.value, parts, hasAssets, o))
  {
    hide Parsed, PrintUpload, LegalParts, BoundaryLine, Finish, Collect, Uploadable, Reads;
    if |PrintUpload(boundary, parts, tail)| > SIZE_LIMIT {
      TooLarge(PrintUpload(boundary, parts, tail), hasAssets, o);
      return;
    }
    UploadReadsBack(boundary, parts, tail, hasAssets, o);
    if Collect(parts, 0, START, o).Ok? {
      var s := Collect(parts, 0, START, o).value;
      FinishExactly(parts, s, tail, hasAssets, o);
      if Finish(s, tail, hasAssets).Ok? {
        FinishReads(parts, s, tail, hasAssets, o);
      }
    } else {
      NotCollected(parts, tail, o);
    }
  }

  lemma NotCollected(parts: seq<Section>, tail: string, o: Oracle)
    requires parts != [] && Collect(parts, 0, START, o).Err?
    ensures !Uploadable(parts, tail, o)
  {
    hide M.Acceptable, Usable, ModulesOf, Collect;
    CollectExactly(parts, 0, START, o);
  }

  // ----- every body -----

  lemma CutFree(b: string, from: nat, end: nat, delimiter: string)
    requires IndexOf(b, delimiter, from) == end && from <= end <= |b| && delimiter != ""
    ensures Free(b[from..end], delimiter)
  {
    hide IndexOf;
    forall i: nat | i <= end - from ensures !At(b[from..end], i, delimiter) {
      AtSlice(b, from, end, i, delimiter);
      assert i < end - from ==> !At(b, from + i, delimiter);
    }
  }

  /** One turn of the reader. */
  lemma ReadTurn(b: string, delimiter: string, offset: nat, count: nat, s: State, o: Oracle)
    returns (h: nat, e: nat, part: Section, next: State)
    requires offset <= |b| && delimiter != "" && ParseParts(b, delimiter, offset, count, s, o).Ok?
    requires !At(b, offset, "--")
    ensures offset + 2 <= h && h + 4 <= e && e + |delimiter| <= |b|
    ensures b[offset..offset + 2] == CRLF && b[h..h + 4] == BLANK && b[e..e + |delimiter|] == delimiter
    ensures part.header == b[offset + 2..h] && part.content == b[h + 4..e] && LegalPart(part, delimiter)
    ensures ParseParts(b, delimiter, offset, count, s, o) ==
            ParseParts(b, delimiter, e + |delimiter|, count + 1, next, o)
  {
    hide IndexOf, ReadHeaders, Advance, LegalPart;
    h := IndexOf(b, BLANK, offset + 2);
    var headers := ReadHeaders(b[offset + 2..h]).value;
    e := IndexOf(b, delimiter, h + 4);
    next := Advance(s, headers, b[h + 4..e], o).value;
    part := Section(b[offset + 2..h], headers, b[h + 4..e]);
    CutLegal(b, h + 4, e, delimiter, part);
  }

  lemma CutLegal(b: string, from: nat, end: nat, delimiter: string, part: Section)
    requires IndexOf(b, delimiter, from) == end && from <= end <= |b| && delimiter != ""
    requires part.content == b[from..end] && ReadHeaders(part.header) == Ok(part.headers)
    ensures LegalPart(part, delimiter)
  {
    hide IndexOf, ReadHeaders, Free, Heads;
    CutFree(b, from, end, delimiter);
    HeadersExactly(part.header, part.headers);
  }

  /** What is read of a body frames it completely: nothing lies between the parts, and no part
      holds a delimiter. */
  lemma {:induction false} ReadIsFramed(b: string, delimiter: string, offset: nat, count: nat, s: State, o: Oracle)
    returns (parts: seq<Section>)
    requires offset <= |b| && delimiter != "" && ParseParts(b, delimiter, offset, count, s, o).Ok?
    ensures var (last, end) := ParseParts(b, delimiter, offset, count, s, o).value;
      && offset <= end <= |b| && At(b, end, "--")
      && b[offset..end] == PrintParts(parts, delimiter)
      && (parts == [] ==> last == s)
    ensures LegalParts(parts, delimiter)
    decreases |b| - offset
  {
    hide PrintParts, LegalPart, At, ParseParts;
    if At(b, offset, "--") {
      parts := [];
      ReadEnds(b, delimiter, offset, count, s, o);
      PrintNothing(delimiter);
    } else {
      var h, e, part, next := ReadTurn(b, delimiter, offset, count, s, o);
      var rest := ReadIsFramed(b, delimiter, e + |delimiter|, count + 1, next, o);
      parts := [part] + rest;
      FrameStep(b, delimiter, offset, h, e, ParseParts(b, delimiter, offset, count, s, o).value.1, part, rest);
    }
  }

  lemma ReadEnds(b: string, delimiter: string, offset: nat, count: nat, s: State, o: Oracle)
    requires offset <= |b| && At(b, offset, "--")
    ensures ParseParts(b, delimiter, offset, count, s, o) == Ok((s, offset)) && b[offset..offset] == ""
  {
  }

  lemma SixJoin(b: string, i: nat, h: nat, e: nat, n: nat, end: nat)
    requires i + 2 <= h && h + 4 <= e && e + n <= end <= |b|
    ensures b[i..i + 2] + b[i + 2..h] + b[h..h + 4] + b[h + 4..e] + b[e..e + n] + b[e + n..end] == b[i..end]
  {
    SliceJoins(b, i, i + 2, h);
    SliceJoins(b, i, h, h + 4);
    SliceJoins(b, i, h + 4, e);
    SliceJoins(b, i, e, e + n);
    SliceJoins(b, i, e + n, end);
  }

  lemma PrintNothing(delimiter: string)
    ensures PrintParts([], delimiter) == ""
  {
  }

  lemma PrintCons(part: Section, rest: seq<Section>, delimiter: string)
    ensures PrintParts([part] + rest, delimiter) ==
            CRLF + part.header + BLANK + part.content + delimiter + PrintParts(rest, delimiter)
  {
    assert ([part] + rest)[1..] == rest;
  }

  lemma FrameStep(b: string, delimiter: string, i: nat, h: nat, e: nat, end: nat, part: Section, rest: seq<Section>)
    requires i + 2 <= h && h + 4 <= e && e + |delimiter| <= end <= |b|
    requires b[i..i + 2] == CRLF && b[h..h + 4] == BLANK && b[e..e + |delimiter|] == delimiter
    requires part.header == b[i + 2..h] && part.content == b[h + 4..e]
    requires b[e + |delimiter|..end] == PrintParts(rest, delimiter)
    ensures b[i..end] == PrintParts([part] + rest, delimiter)
  {
    hide PrintParts;
    SixJoin(b, i, h, e, |delimiter|, end);
    PrintCons(part, rest, delimiter);
  }

  /** A body as it must be framed: its boundary line, legible parts, a closing mark, and at most one line end. */
  ghost predicate IsUpload(b: string, boundary: string, parts: seq<Section>, tail: string, o: Oracle) {
    && |b| <= 67108864 && BoundaryText(boundary) && parts != []
    && LegalParts(parts, "\r\n" + boundary) && b == PrintUpload(boundary, parts, tail)
    && Uploadable(parts, tail, o)
  }

  lemma AcceptedIsFramed(b: string, hasAssets: bool, o: Oracle)
    returns (boundary: string, parts: seq<Section>, tail: string)
    requires Parsed(b, hasAssets, o).Ok?
    ensures |b| <= 67108864 && BoundaryLine(boundary) && parts != [] && LegalParts(parts, CRLF + boundary)
    ensures b == PrintUpload(boundary, parts, tail)
  {
    hide IndexOf, PrintParts, ParseParts, BoundaryLine, M.Canonical, LegalParts;
    boundary := FirstLine(b);
    assert b[..|boundary|] == boundary;
    var d := CRLF + boundary;
    parts := ReadIsFramed(b, d, |boundary|, 0, START, o);
    var (last, end) := ParseParts(b, d, |boundary|, 0, START, o).value;
    tail := b[end + 2..];
    assert Finish(last, tail, hasAssets).Ok?;
    assert last.metadata.Some?;
    SliceJoins(b, 0, |boundary|, end);
    SliceJoins(b, 0, end, end + 2);
    SliceJoins(b, 0, end + 2, |b|);
  }

  lemma AcceptedIsUpload(b: string, hasAssets: bool, o: Oracle)
    returns (boundary: string, parts: seq<Section>, tail: string)
    requires Parsed(b, hasAssets, o).Ok?
    ensures IsUpload(b, boundary, parts, tail, o)
  {
    hide Parsed, BoundaryLine, BoundaryText, LegalParts, Uploadable, Reads, PrintUpload;
    boundary, parts, tail := AcceptedIsFramed(b, hasAssets, o);
    BoundaryExactly(boundary);
    UploadKeepsModules(boundary, parts, tail, hasAssets, o);
  }

  /** A body is accepted exactly when it is one boundary line, legible parts and a closing mark, its parts being
      usable, one of them metadata, and their modules a manifest; and it is read as what its parts hold. */
  lemma AcceptsExactly(b: string, hasAssets: bool, o: Oracle)
    ensures Parsed(b, hasAssets, o).Ok? <==> exists boundary, parts, tail :: IsUpload(b, boundary, parts, tail, o)
    ensures forall boundary, parts, tail :: IsUpload(b, boundary, parts, tail, o) ==>
              Parsed(b, hasAssets, o).Ok? && Reads(Parsed(b, hasAssets, o).value, parts, hasAssets, o)
  {
    hide Parsed, IsUpload, Reads;
    if Parsed(b, hasAssets, o).Ok? {
      var boundary, parts, tail := AcceptedIsUpload(b, hasAssets, o);
    }
    forall boundary, parts, tail | IsUpload(b, boundary, parts, tail, o)
      ensures Parsed(b, hasAssets, o).Ok? && Reads(Parsed(b, hasAssets, o).value, parts, hasAssets, o)
    {
      UploadIsAccepted(b, boundary, parts, tail, hasAssets, o);
    }
  }

  lemma UploadIsAccepted(b: string, boundary: string, parts: seq<Section>, tail: string, hasAssets: bool, o: Oracle)
    requires IsUpload(b, boundary, parts, tail, o)
    ensures Parsed(b, hasAssets, o).Ok? && Reads(Parsed(b, hasAssets, o).value, parts, hasAssets, o)
  {
    hide Parsed, Reads, LegalParts, Uploadable, PrintUpload, BoundaryText, BoundaryLine;
    BoundaryExactly(boundary);
    UploadKeepsModules(boundary, parts, tail, hasAssets, o);
  }
}
