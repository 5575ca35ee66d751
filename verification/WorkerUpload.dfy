/** Reading the multipart body that uploads a Worker (section 5.1.1 of RFC 2046). */
module WorkerUpload {
  import opened Results
  import opened Searching
  import opened ModuleManifest
  import Texts

  const CRLF := "\r\n"
  const BLANK := "\r\n\r\n"
  const SIZE_LIMIT := 64 * 1024 * 1024
  const PART_LIMIT := 513
  const HEADER_LIMIT := 16384
  const SOURCE_MAP := "application/source-map"

  // ----- headers -----

  /** Whether a line starts with a lower-case lead, letter case aside. */
  predicate StartsFold(line: string, lead: string) {
    |line| >= |lead| && forall i :: 0 <= i < |lead| ==> Texts.LowerChar(line[i]) == lead[i]
  }

  const DISPOSITION := "content-disposition:"
  const NAME_LEAD := DISPOSITION + " form-data; name=\""
  const FILE_LEAD := "; filename=\""
  const TYPE := "content-type:"

  function SplitLines(text: string): (r: seq<string>)
    decreases |text|
  {
    var i := IndexOf(text, CRLF, 0);
    if i == -1 then [text] else [text[..i]] + SplitLines(text[i + 2..])
  }

  function Those(lines: seq<string>, lead: string): seq<string> {
    if lines == [] then []
    else (if StartsFold(lines[0], lead) then [lines[0]] else []) + Those(lines[1..], lead)
  }

  /** The text up to the next quote, and what follows that quote. */
  function TakeQuoted(text: string): Option<(string, string)> {
    if text == "" || text[0] == '\r' || text[0] == '\n' then None
    else if text[0] == '"' then Some(("", text[1..]))
    else
      var rest := TakeQuoted(text[1..]);
      if rest.None? then None else Some(([text[0]] + rest.value.0, rest.value.1))
  }

  function ReadDisposition(line: string): Option<(string, Option<string>)> {
    if !StartsFold(line, NAME_LEAD) then None
    else
      var name := TakeQuoted(line[|NAME_LEAD|..]);
      if name.None? || name.value.0 == "" then None
      else if name.value.1 == "" then Some((name.value.0, None))
      else if !StartsFold(name.value.1, FILE_LEAD) then None
      else
        var file := TakeQuoted(name.value.1[|FILE_LEAD|..]);
        if file.None? || file.value.0 == "" || file.value.1 != "" then None
        else Some((name.value.0, Some(file.value.0)))
  }

  function Trim(s: string): string {
    Texts.TrimEnd(Texts.TrimStart(s))
  }

  datatype Headers = Headers(name: string, filename: Option<string>, contentType: Option<string>)

  function ReadHeaders(text: string): Result<Headers> {
    var lines := SplitLines(text);
    var disposition, types := Those(lines, DISPOSITION), Those(lines, TYPE);
    if |disposition| != 1 || |types| > 1 || |lines| != |disposition| + |types| then Err("headers ambiguous")
    else
      var d := ReadDisposition(disposition[0]);
      if d.None? then Err("disposition unsupported")
      else Ok(Headers(d.value.0, d.value.1, if types == [] then None else Some(TypeOf(types[0]))))
  }

  function TypeOf(line: string): string {
    if |line| < |TYPE| then "" else Trim(line[|TYPE|..])
  }

  // ----- parts -----

  /** What the metadata part declares; None stands for JSON that does not parse or holds nothing. */
  datatype Metadata = Metadata(mainModule: Option<string>, bodyPart: bool, assets: bool, keepAssets: bool)
  datatype Oracle = Oracle(json: string -> Option<Metadata>, sha: string -> string)
  datatype State = State(modules: seq<ModuleDigest>, sourceMaps: bool, metadata: Option<Metadata>)
  datatype Upload = Upload(manifest: Manifest, staticAssets: bool, sourceMaps: bool)

  const START := State([], false, None)

  function Advance(s: State, h: Headers, content: string, o: Oracle): Result<State> {
    if h.name == "metadata" then
      if s.metadata.Some? || h.filename.Some? then Err("metadata ambiguous")
      else
        var m := (o.json)(content);
        if m.None? || m.value.mainModule.None? || m.value.bodyPart then Err("no one module entry point")
        else Ok(s.(metadata := m))
    else if h.filename.None? || h.contentType.None? then Err("module must be a typed file")
    else if h.contentType.value == SOURCE_MAP then Ok(s.(sourceMaps := true))
    else Ok(s.(modules := s.modules +
               [ModuleDigest(h.name, h.contentType.value, |content|, (o.sha)(content))]))
  }

  // ----- the body -----

  function FirstLine(b: string): string {
    var head := if |b| <= 256 then b else b[..256];
    var i := IndexOf(head, CRLF, 0);
    if i == -1 then head else head[..i]
  }

  predicate BoundaryChar(c: char) {
    'a' <= c <= 'z' || 'A' <= c <= 'Z' || '0' <= c <= '9' || c == '-'
  }

  predicate BoundaryLine(line: string) {
    3 <= |line| <= 202 && line[..2] == "--" && forall i :: 0 <= i < |line| ==> BoundaryChar(line[i])
  }

  function ParseParts(b: string, delimiter: string, offset: nat, count: nat, s: State, o: Oracle): (r: Result<(State, nat)>)
    requires offset <= |b|
    ensures r.Ok? ==> At(b, r.value.1, "--")
    decreases |b| - offset
  {
    if At(b, offset, "--") then Ok((s, offset))
    else if count + 1 > PART_LIMIT || !At(b, offset, CRLF) then Err("framing invalid")
    else
      var headerEnd := IndexOf(b, BLANK, offset + 2);
      if headerEnd == -1 || headerEnd - (offset + 2) > HEADER_LIMIT then Err("headers invalid")
      else
        var h :- ReadHeaders(b[offset + 2..headerEnd]);
        var end := IndexOf(b, delimiter, headerEnd + 4);
        if end < 0 then Err("truncated")
        else
          var next :- Advance(s, h, b[headerEnd + 4..end], o);
          ParseParts(b, delimiter, end + |delimiter|, count + 1, next, o)
  }

  ghost function Finish(s: State, tail: string, hasAssets: bool): Result<Upload> {
    if (tail != "" && tail != CRLF) || s.metadata.None? then Err("closing boundary invalid")
    else if s.metadata.value.mainModule.None? then Err("no one module entry point")
    else
      var manifest :- Canonical(s.metadata.value.mainModule.value, s.modules);
      Ok(Upload(manifest, hasAssets || s.metadata.value.assets || s.metadata.value.keepAssets, s.sourceMaps))
  }

  ghost function Parsed(b: string, hasAssets: bool, o: Oracle): Result<Upload> {
    if |b| == 0 || |b| > SIZE_LIMIT then Err("size invalid")
    else if !BoundaryLine(FirstLine(b)) then Err("boundary invalid")
    else
      var parts :- ParseParts(b, CRLF + FirstLine(b), |FirstLine(b)|, 0, START, o);
      Finish(parts.0, b[parts.1 + 2..], hasAssets)
  }

  /** One pass over the parts; each turn of the loop reads one part and moves past its closing delimiter. */
  method ReadParts(b: string, delimiter: string, start: nat, o: Oracle) returns (r: Result<(State, nat)>)
    requires start <= |b|
    ensures r == ParseParts(b, delimiter, start, 0, START, o)
  {
    hide IndexOf, ReadHeaders, Advance;
    var offset, count, s := start, 0, START;
    while !At(b, offset, "--")
      invariant offset <= |b|
      invariant ParseParts(b, delimiter, offset, count, s, o) == ParseParts(b, delimiter, start, 0, START, o)
      decreases |b| - offset
    {
      count := count + 1;
      if count > PART_LIMIT || !At(b, offset, CRLF) {
        return Err("framing invalid");
      }
      var headerStart := offset + 2;
      var headerEnd := IndexOf(b, BLANK, headerStart);
      if headerEnd == -1 || headerEnd - headerStart > HEADER_LIMIT {
        return Err("headers invalid");
      }
      var h :- ReadHeaders(b[headerStart..headerEnd]);
      var end := IndexOf(b, delimiter, headerEnd + 4);
      if end < 0 {
        return Err("truncated");
      }
      s :- Advance(s, h, b[headerEnd + 4..end], o);
      offset := end + |delimiter|;
    }
    return Ok((s, offset));
  }

  method ParseWorkerUpload(b: string, hasAssets: bool, o: Oracle) returns (r: Result<Upload>)
    ensures r == Parsed(b, hasAssets, o)
  {
    hide ParseParts, IndexOf, BoundaryLine, Canonical;
    if |b| == 0 || |b| > SIZE_LIMIT {
      return Err("size invalid");
    }
    var firstLine := FirstLine(b);
    if !BoundaryLine(firstLine) {
      return Err("boundary invalid");
    }
    var parts :- ReadParts(b, CRLF + firstLine, |firstLine|, o);
    var s, tail := parts.0, b[parts.1 + 2..];
    if (tail != "" && tail != CRLF) || s.metadata.None? {
      return Err("closing boundary invalid");
    }
    if s.metadata.value.mainModule.None? {
      return Err("no one module entry point");
    }
    var manifest :- CanonicalManifest(s.metadata.value.mainModule.value, s.modules);
    return Ok(Upload(manifest, hasAssets || s.metadata.value.assets || s.metadata.value.keepAssets, s.sourceMaps));
  }
}
