/** Reading a raw message and choosing the header fields that a signature covers (section 5.4.2 of RFC 6376). */
module DkimHeaders {
  import opened Results
  import opened DkimBody
  import opened Searching
  import Texts

  const MESSAGE_LIMIT := 5 * 1024 * 1024
  const HEADER_LIMIT := 256 * 1024
  const BLANK := "\r\n\r\n"

  // ----- header blocks -----

  /** A line end after which a new field starts: what follows it is not whitespace. */
  predicate FieldBreak(s: string) {
    |s| >= 3 && s[..2] == CRLF && !Wsp(s[2])
  }

  /** The fields of a header text, continuation lines included. */
  function Blocks(text: string): (r: seq<string>)
    ensures r != []
    decreases |text|
  {
    if text == "" then [""]
    else if FieldBreak(text) then [""] + Blocks(text[2..])
    else
      var rest := Blocks(text[1..]);
      [[text[0]] + rest[0]] + rest[1..]
  }

  lemma {:induction false} BlocksLose(text: string)
    ensures Join(Blocks(text)) == text
    decreases |text|
  {
    if text != "" {
      if FieldBreak(text) {
        BlocksLose(text[2..]);
        var rest := Blocks(text[2..]);
        assert ([""] + rest)[1..] == rest;
        assert text == CRLF + text[2..];
      } else {
        BlocksLose(text[1..]);
        var rest := Blocks(text[1..]);
        assert text == [text[0]] + text[1..];
        if |rest| > 1 {
          Prepend(text[0], rest[0], CRLF + Join(rest[1..]));
        }
      }
    }
  }

  /** A line end that continues a field: whitespace follows it. */
  predicate FoldAt(s: string, i: nat) {
    i + 2 < |s| && s[i] == '\r' && s[i + 1] == '\n' && Wsp(s[i + 2])
  }

  ghost predicate Unfolded(s: string) {
    forall i: nat :: !FoldAt(s, i)
  }

  /** A field as it stands in a header: no line end in it but to continue it. */
  ghost predicate Folded(s: string) {
    forall i: nat :: i + 2 < |s| && s[i] == '\r' && s[i + 1] == '\n' ==> Wsp(s[i + 2])
  }

  lemma {:induction false} BlockLeads(text: string)
    ensures Blocks(text)[0] <= text
    ensures text != "" && !FieldBreak(text) ==> Blocks(text)[0] != "" && Blocks(text)[0][0] == text[0]
    decreases |text|
  {
    if text != "" && !FieldBreak(text) {
      BlockLeads(text[1..]);
      assert text == [text[0]] + text[1..];
    }
  }

  /** A field goes on as long as its line ends are followed by whitespace, and the next starts with none. */
  lemma {:induction false} BlocksAre(text: string)
    ensures forall b :: b in Blocks(text) ==> Folded(b)
    ensures forall i :: 0 < i < |Blocks(text)| ==> Blocks(text)[i] == "" || !Wsp(Blocks(text)[i][0])
    decreases |text|
  {
    if text != "" {
      if FieldBreak(text) {
        BlocksAre(text[2..]);
        BlockLeads(text[2..]);
        var rest := Blocks(text[2..]);
        assert forall i :: 0 < i < |Blocks(text)| ==> Blocks(text)[i] == rest[i - 1];
      } else {
        var rest := Blocks(text[1..]);
        BlocksAre(text[1..]);
        BlockLeads(text[1..]);
        var first := [text[0]] + rest[0];
        forall i: nat | i + 2 < |first| && first[i] == '\r' && first[i + 1] == '\n' ensures Wsp(first[i + 2]) {
          if i == 0 {
            assert rest[0][0] == text[1] && rest[0][1] == text[2];
            assert text[..2] == CRLF;
          } else {
            assert rest[0] in rest && rest[0][i - 1] == '\r' && rest[0][i] == '\n';
          }
        }
        assert forall b :: b in Blocks(text) ==> b == first || b in rest;
      }
    }
  }

  // ----- fields -----

  /** What the trimming of the source removes from a string of bytes. */
  predicate Blank(c: char) {
    c in {' ', '\t', '\n', '\r', 11 as char, 12 as char, 160 as char}
  }

  /** Of the bytes: tab, line feed, vertical tab, form feed, carriage return, space and no-break space. */
  lemma BlankExactly(c: char)
    ensures Blank(c) <==> 9 <= c as int <= 13 || c as int == 0x20 || c as int == 0xA0
  {
  }

  function TrimStart(s: string): string {
    if s != "" && Blank(s[0]) then TrimStart(s[1..]) else s
  }

  function TrimEnd(s: string): string {
    if s != "" && Blank(s[|s| - 1]) then TrimEnd(s[..|s| - 1]) else s
  }

  function Trim(s: string): string {
    TrimEnd(TrimStart(s))
  }

  /** Line ends before whitespace, with that whitespace, become one space. */
  function Unfold(s: string): string
    decreases |s|
  {
    if s == "" then ""
    else if |s| >= 3 && s[..2] == CRLF && Wsp(s[2]) then " " + Unfold(Skip(s[2..]))
    else [s[0]] + Unfold(s[1..])
  }

  function Colon(s: string): (r: int)
    ensures -1 <= r < |s| && (r >= 0 ==> s[r] == ':' && ':' !in s[..r]) && (r == -1 <==> ':' !in s)
  {
    if s == "" then -1 else if s[0] == ':' then 0
    else
      var r := Colon(s[1..]);
      if r == -1 then -1 else r + 1
  }

  predicate NameChar(c: char) {
    '!' <= c <= '~' && c != ':' && c != '"'
  }

  datatype RawHeader = RawHeader(name: string, raw: string, unfolded: string)

  predicate WellNamed(raw: string) {
    var colon := Colon(raw);
    colon > 0 && forall i :: 0 <= i < colon ==> NameChar(raw[i])
  }

  function HeaderOf(raw: string): RawHeader
    requires WellNamed(raw)
  {
    var colon := Colon(raw);
    RawHeader(Texts.Lower(Trim(raw[..colon])), raw, Trim(Unfold(raw[colon + 1..])))
  }

  function Raws(headers: seq<RawHeader>): seq<string> {
    if headers == [] then [] else [headers[0].raw] + Raws(headers[1..])
  }

  // ----- a raw message -----

  /** A CR that ends no line. */
  predicate StrayCr(s: string) {
    exists i :: 0 <= i < |s| && s[i] == '\r' && !(i + 1 < |s| && s[i + 1] == '\n')
  }

  lemma StrayCrIs(s: string)
    ensures StrayCr(s) <==> !forall i :: 0 <= i < |s| && s[i] == '\r' ==> i + 1 < |s| && s[i + 1] == '\n'
  {
  }

  datatype Message = Message(headers: seq<RawHeader>, body: string)

  method ReadHeaders(blocks: seq<string>) returns (r: Result<seq<RawHeader>>)
    ensures r.Ok? <==> forall i :: 0 <= i < |blocks| ==> WellNamed(blocks[i])
    ensures r.Ok? ==> |r.value| == |blocks| && Raws(r.value) == blocks
    ensures r.Ok? ==> forall i :: 0 <= i < |blocks| ==> WellNamed(blocks[i]) && i < |r.value| && r.value[i] == HeaderOf(blocks[i])
  {
    hide HeaderOf, WellNamed;
    var headers: seq<RawHeader> := [];
    for i := 0 to |blocks|
      invariant |headers| == i
      invariant forall j :: 0 <= j < i ==> WellNamed(blocks[j]) && headers[j] == HeaderOf(blocks[j])
    {
      if !WellNamed(blocks[i]) {
        return Err("header_malformed");
      }
      headers := headers + [HeaderOf(blocks[i])];
    }
    forall i | 0 <= i < |headers| ensures headers[i].raw == blocks[i] {
      RawOf(blocks[i]);
    }
    RawsAre(headers, blocks);
    return Ok(headers);
  }

  lemma RawOf(raw: string)
    requires WellNamed(raw)
    ensures HeaderOf(raw).raw == raw
  {
  }

  lemma {:induction false} RawsAre(headers: seq<RawHeader>, blocks: seq<string>)
    requires |headers| == |blocks| && forall i :: 0 <= i < |headers| ==> headers[i].raw == blocks[i]
    ensures Raws(headers) == blocks
  {
    if headers != [] {
      RawsAre(headers[1..], blocks[1..]);
      assert blocks == [blocks[0]] + blocks[1..];
    }
  }

  /** Reading loses nothing: the fields, the blank line and the body are the message with its line ends normalised. */
  method ParseRawMessage(input: string) returns (r: Result<Message>)
    ensures r.Ok? ==>
      var m := r.value;
      && |input| <= MESSAGE_LIMIT && !StrayCr(input)
      && Join(Raws(m.headers)) + BLANK + m.body == Normalize(input)
      && |Join(Raws(m.headers))| == IndexOf(Normalize(input), BLANK, 0) <= HEADER_LIMIT
      && Raws(m.headers) == Blocks(Join(Raws(m.headers)))
      && forall i :: 0 <= i < |m.headers| ==>
           WellNamed(m.headers[i].raw) && m.headers[i] == HeaderOf(m.headers[i].raw)
    ensures r.Ok? <==>
      && |input| <= 5242880
      && (forall i :: 0 <= i < |input| && input[i] == '\r' ==> i + 1 < |input| && input[i + 1] == '\n')
      && 0 <= IndexOf(Normalize(input), BLANK, 0) <= 262144
      && forall block :: block in Blocks(Normalize(input)[..IndexOf(Normalize(input), BLANK, 0)]) ==> WellNamed(block)
  {
    hide HeaderOf, WellNamed, IndexOf, Normalize, Blocks, StrayCr;
    if |input| > MESSAGE_LIMIT {
      return Err("message_limit");
    }
    StrayCrIs(input);
    if StrayCr(input) {
      return Err("ambiguous_line_endings");
    }
    var normalized := Normalize(input);
    var boundary := IndexOf(normalized, BLANK, 0);
    if boundary < 0 {
      return Err("header_boundary_missing");
    }
    if boundary > HEADER_LIMIT {
      return Err("header_limit");
    }
    var headerText, body := normalized[..boundary], normalized[boundary + 4..];
    var headers :- ReadHeaders(Blocks(headerText));
    BlocksLose(headerText);
    assert normalized == headerText + BLANK + body;
    forall i | 0 <= i < |headers| ensures WellNamed(headers[i].raw) && headers[i] == HeaderOf(headers[i].raw) {
      RawOf(Blocks(headerText)[i]);
    }
    return Ok(Message(headers, body));
  }

  // ----- canonical fields -----

  function CanonicalHeader(raw: string, mode: Mode, lineEnd: string): string {
    if mode == Simple then raw + lineEnd
    else
      var colon := Colon(raw);
      var name := if colon == -1 then (if raw == "" then "" else raw[..|raw| - 1]) else raw[..colon];
      Texts.Lower(Trim(name)) + ":" + Trim(Collapse(Unfold(raw[colon + 1..]))) + lineEnd
  }

  // ----- trimming -----

  ghost predicate AllBlank(s: string) {
    forall i :: 0 <= i < |s| ==> Blank(s[i])
  }

  /** Text without whitespace around it. */
  predicate Bare(s: string) {
    s == "" || (!Blank(s[0]) && !Blank(s[|s| - 1]))
  }

  lemma {:induction false} TrimStartOf(a: string, t: string)
    requires AllBlank(a) && (t == "" || !Blank(t[0]))
    ensures TrimStart(a + t) == t
  {
    if a == "" {
      assert a + t == t;
    } else {
      assert (a + t)[1..] == a[1..] + t;
      TrimStartOf(a[1..], t);
    }
  }

  lemma {:induction false} TrimEndOf(t: string, b: string)
    requires AllBlank(b) && (t == "" || !Blank(t[|t| - 1]))
    ensures TrimEnd(t + b) == t
  {
    if b == "" {
      assert t + b == t;
    } else {
      assert (t + b)[..|t + b| - 1] == t + b[..|b| - 1];
      TrimEndOf(t, b[..|b| - 1]);
    }
  }

  /** Trimming takes exactly the whitespace around a text. */
  lemma TrimOf(a: string, t: string, b: string)
    requires AllBlank(a) && Bare(t) && AllBlank(b)
    ensures Trim(a + t + b) == t
  {
    if t == "" {
      assert a + t + b == (a + b) + "";
      assert AllBlank(a + b);
      TrimStartOf(a + b, "");
    } else {
      assert a + t + b == a + (t + b);
      TrimStartOf(a, t + b);
      TrimEndOf(t, b);
    }
  }

  lemma {:induction false} TrimStartIs(s: string) returns (a: string)
    ensures s == a + TrimStart(s) && AllBlank(a) && (TrimStart(s) == "" || !Blank(TrimStart(s)[0]))
  {
    if s != "" && Blank(s[0]) {
      var rest := TrimStartIs(s[1..]);
      a := [s[0]] + rest;
      assert s == [s[0]] + s[1..];
    } else {
      a := "";
    }
  }

  lemma {:induction false} TrimEndIs(s: string) returns (b: string)
    ensures s == TrimEnd(s) + b && AllBlank(b) && (TrimEnd(s) == "" || !Blank(TrimEnd(s)[|TrimEnd(s)| - 1]))
  {
    if s != "" && Blank(s[|s| - 1]) {
      var front := s[..|s| - 1];
      var rest := TrimEndIs(front);
      b := rest + [s[|s| - 1]];
      assert s == front + [s[|s| - 1]];
      assert s == TrimEnd(s) + rest + [s[|s| - 1]];
    } else {
      b := "";
    }
  }

  /** A text is what trimming leaves of it, with whitespace around. */
  lemma TrimIs(s: string) returns (a: string, b: string)
    ensures s == a + Trim(s) + b && AllBlank(a) && AllBlank(b) && Bare(Trim(s))
  {
    a := TrimStartIs(s);
    b := TrimEndIs(TrimStart(s));
    var t := TrimStart(s);
    assert t == TrimEnd(t) + b;
    if TrimEnd(t) != "" {
      assert TrimEnd(t)[0] == t[0];
    }
  }

  // ----- collapsing -----

  lemma CollapseStep(s: string)
    requires s != ""
    ensures Collapse(s) == if Wsp(s[0]) then " " + Collapse(Skip(s[1..])) else [s[0]] + Collapse(s[1..])
  {
  }

  lemma Glue(x: string, y: string, z: string)
    ensures (x + y) + z == x + (y + z)
  {
  }

  lemma {:induction false} CollapseJoins(x: string, y: string)
    requires x == "" || y == "" || !Wsp(x[|x| - 1]) || !Wsp(y[0])
    ensures Collapse(x + y) == Collapse(x) + Collapse(y)
    decreases |x|
  {
    if x == "" {
      assert x + y == y;
    } else if y == "" {
      assert x + y == x;
    } else {
      hide Collapse;
      CollapseStep(x);
      CollapseStep(x + y);
      assert (x + y)[1..] == x[1..] + y;
      if Wsp(x[0]) {
        SkipJoins(x[1..], y);
        CollapseJoins(Skip(x[1..]), y);
        Glue(" ", Collapse(Skip(x[1..])), Collapse(y));
      } else {
        CollapseJoins(x[1..], y);
        Glue([x[0]], Collapse(x[1..]), Collapse(y));
      }
    }
  }

  lemma {:induction false} SkipJoins(x: string, y: string)
    requires y != "" && (x == "" || !Wsp(x[|x| - 1]) || !Wsp(y[0])) && (x == "" ==> !Wsp(y[0]))
    ensures Skip(x + y) == Skip(x) + y
    ensures Skip(x) == "" || Skip(x)[|Skip(x)| - 1] == x[|x| - 1]
  {
    if x == "" {
      assert x + y == y;
    } else {
      assert (x + y)[1..] == x[1..] + y;
      if Wsp(x[0]) {
        SkipJoins(x[1..], y);
      }
    }
  }

  lemma {:induction false} CollapseBlank(s: string)
    requires AllBlank(s)
    ensures AllBlank(Collapse(s)) && AllBlank(Skip(s))
    decreases |s|
  {
    if s != "" {
      CollapseBlank(s[1..]);
      if Wsp(s[0]) {
        CollapseBlank(Skip(s[1..]));
      }
    }
  }

  lemma {:induction false} CollapseBare(s: string)
    requires s != "" && !Wsp(s[|s| - 1])
    ensures Collapse(s) != "" && Collapse(s)[|Collapse(s)| - 1] == s[|s| - 1]
    ensures !Wsp(s[0]) ==> Collapse(s)[0] == s[0]
    decreases |s|
  {
    if Wsp(s[0]) {
      SkipJoins(s[1..|s| - 1], [s[|s| - 1]]);
      assert s[1..] == s[1..|s| - 1] + [s[|s| - 1]];
      CollapseBare(Skip(s[1..]));
    } else if |s| > 1 {
      CollapseBare(s[1..]);
    }
  }

  /** Collapsing before trimming is collapsing after. */
  lemma TrimCollapses(u: string)
    ensures Trim(Collapse(u)) == Collapse(Trim(u))
  {
    var a, b := TrimIs(u);
    var t := Trim(u);
    CollapseBlank(a);
    CollapseBlank(b);
    if t == "" {
      assert u == a + b && AllBlank(a + b);
      CollapseBlank(a + b);
      TrimOf(Collapse(u), "", "");
      assert Collapse(u) + "" + "" == Collapse(u);
    } else {
      assert u == a + (t + b);
      CollapseJoins(a, t + b);
      CollapseJoins(t, b);
      CollapseBare(t);
      TrimOf(Collapse(a), Collapse(t), Collapse(b));
      assert Collapse(u) == Collapse(a) + Collapse(t) + Collapse(b);
    }
  }

  /** Collapsed text is its words, one space apart. */
  lemma CollapsedWords(t: string)
    requires Bare(t)
    ensures Collapse(t) == Spaced(Words(t))
  {
    ReducedSpaced(t);
    if t != "" {
      CollapseBare(t);
    }
  }

  // ----- what is read of a field -----

  /** Visible characters other than colons and double quotes. */
  predicate FieldText(name: string) {
    name != "" && forall i :: 0 <= i < |name| ==> name[i] == '!' || '#' <= name[i] <= '9' || ';' <= name[i] <= '~'
  }

  /** A field is well named exactly when such characters stand in front of its first colon. */
  lemma WellNamedExactly(raw: string)
    ensures WellNamed(raw) <==> exists name, value :: raw == name + ":" + value && FieldText(name)
  {
    if WellNamed(raw) {
      assert raw == raw[..Colon(raw)] + ":" + raw[Colon(raw) + 1..];
      assert FieldText(raw[..Colon(raw)]);
    }
    if name, value :| raw == name + ":" + value && FieldText(name) {
      ColonSplits(name, value);
    }
  }

  lemma FirstColon(c: string, k: nat)
    requires k < |c| && c[k] == ':' && forall i :: 0 <= i < k ==> c[i] != ':'
    ensures Colon(c) == k
  {
    var front := c[..Colon(c)];
    assert forall i :: 0 <= i < |front| ==> front[i] == c[i];
  }

  lemma ColonSplits(name: string, value: string)
    requires ':' !in name
    ensures var c := name + ":" + value;
      ':' in c && Colon(c) == |name| && c[..|name|] == name && c[|name| + 1..] == value
  {
    var c := name + ":" + value;
    assert c[|name|] == ':';
    forall i | 0 <= i < |name| ensures c[i] != ':' {
    }
    FirstColon(c, |name|);
  }

  // ----- canonical fields tell exactly what counts -----

  /** The part of a field in front of its colon, in lower case and without whitespace around it. */
  function FieldName(raw: string): string
    requires ':' in raw
  {
    Texts.Lower(Trim(raw[..Colon(raw)]))
  }

  /** The words of a field's unfolded value. */
  function FieldWords(raw: string): seq<string>
    requires ':' in raw
  {
    Words(Trim(Unfold(raw[Colon(raw) + 1..])))
  }

  /** A field is read under its name in lower case, with its words as the relaxed form has them. */
  lemma ReadField(raw: string)
    requires WellNamed(raw)
    ensures var h := HeaderOf(raw);
      && h.raw == raw && h.name == FieldName(raw) && Words(h.unfolded) == FieldWords(raw) && Bare(h.unfolded)
      && (Folded(raw) ==> Unfolded(h.unfolded))
  {
    hide Unfold, Words, Trim;
    var value := raw[Colon(raw) + 1..];
    var a, b := TrimIs(Unfold(value));
    if Folded(raw) {
      FoldedSuffix(raw, Colon(raw) + 1);
      UnfoldUnfolds(value);
      UnfoldedMiddle(a, Trim(Unfold(value)), b);
    }
  }

  /** A relaxed field is its name, a colon, its words one space apart, and the line end. */
  lemma RelaxedField(raw: string, lineEnd: string)
    requires ':' in raw
    ensures CanonicalHeader(raw, Relaxed, lineEnd) == FieldName(raw) + ":" + Spaced(FieldWords(raw)) + lineEnd
    ensures ':' !in FieldName(raw)
  {
    hide Unfold, Collapse, Words;
    var value := Unfold(raw[Colon(raw) + 1..]);
    var a, b := TrimIs(value);
    TrimCollapses(value);
    CollapsedWords(Trim(value));
    NameKeeps(raw[..Colon(raw)]);
  }

  lemma NameKeeps(name: string)
    requires ':' !in name
    ensures ':' !in Texts.Lower(Trim(name))
  {
    hide Trim;
    var a, b := TrimIs(name);
    forall i | 0 <= i < |Trim(name)| ensures Trim(name)[i] != ':' {
      assert name[|a| + i] == Trim(name)[i];
    }
  }

  lemma SplitAtColon(m: string, x: string, n: string, y: string)
    requires ':' !in m && ':' !in n && m + ":" + x == n + ":" + y
    ensures m == n && x == y
  {
    var s, t := m + ":" + x, n + ":" + y;
    assert s[|m|] == ':' && t[|n|] == ':';
    forall i | 0 <= i < |m| ensures s[i] != ':' {
    }
    forall i | 0 <= i < |n| ensures t[i] != ':' {
    }
    assert s[..|m|] == m && t[..|n|] == n;
    assert s[|m| + 1..] == x && t[|n| + 1..] == y;
  }

  /** Two fields have one relaxed form exactly when their names agree, case and whitespace around them aside, and their
      unfolded values agree up to runs of whitespace and whitespace around them; a simple form is the field itself. */
  lemma FieldExactly(a: string, b: string, lineEnd: string)
    requires ':' in a && ':' in b
    ensures CanonicalHeader(a, Relaxed, lineEnd) == CanonicalHeader(b, Relaxed, lineEnd) <==>
            FieldName(a) == FieldName(b) && FieldWords(a) == FieldWords(b)
    ensures CanonicalHeader(a, Simple, lineEnd) == a + lineEnd
  {
    hide Unfold, Words, Trim, FieldName;
    RelaxedField(a, lineEnd);
    RelaxedField(b, lineEnd);
    var x, y := Spaced(FieldWords(a)) + lineEnd, Spaced(FieldWords(b)) + lineEnd;
    WordsAre(Trim(Unfold(a[Colon(a) + 1..])));
    WordsAre(Trim(Unfold(b[Colon(b) + 1..])));
    SpacedWords(FieldWords(a));
    SpacedWords(FieldWords(b));
    Regrouped(FieldName(a), Spaced(FieldWords(a)), lineEnd);
    Regrouped(FieldName(b), Spaced(FieldWords(b)), lineEnd);
    if CanonicalHeader(a, Relaxed, lineEnd) == CanonicalHeader(b, Relaxed, lineEnd) {
      SplitAtColon(FieldName(a), x, FieldName(b), y);
      assert x[..|x| - |lineEnd|] == Spaced(FieldWords(a)) && y[..|y| - |lineEnd|] == Spaced(FieldWords(b));
    }
  }

  lemma Regrouped(name: string, value: string, lineEnd: string)
    ensures name + ":" + value + lineEnd == name + ":" + (value + lineEnd)
  {
  }

  // ----- unfolding -----

  lemma {:induction false} UnfoldPlain(s: string)
    requires Unfolded(s)
    ensures Unfold(s) == s
    decreases |s|
  {
    if s != "" {
      assert !FoldAt(s, 0);
      forall i: nat ensures !FoldAt(s[1..], i) {
        assert !FoldAt(s, i + 1);
      }
      UnfoldPlain(s[1..]);
      assert s == [s[0]] + s[1..];
    }
  }

  /** The first fold of a text, with all the whitespace behind it, becomes one space; then the rest is unfolded. */
  lemma {:induction false} UnfoldFirst(a: string, w: string, b: string)
    requires w != "" && (forall i :: 0 <= i < |w| ==> Wsp(w[i])) && (b == "" || !Wsp(b[0]))
    requires forall i: nat :: i < |a| ==> !FoldAt(a + (CRLF + (w + b)), i)
    ensures Unfold(a + (CRLF + (w + b))) == a + (" " + Unfold(b))
    decreases |a|
  {
    var tail := CRLF + (w + b);
    if a == "" {
      assert a + tail == tail && tail[2..] == w + b && tail[2] == w[0] && tail[..2] == CRLF;
      SkipOver(w, b);
    } else {
      var s := a + tail;
      assert !FoldAt(s, 0);
      assert s[1..] == a[1..] + tail;
      forall i: nat | i < |a[1..]| ensures !FoldAt(a[1..] + tail, i) {
        assert !FoldAt(s, i + 1);
      }
      UnfoldFirst(a[1..], w, b);
      assert a == [a[0]] + a[1..];
    }
  }

  lemma {:induction false} SkipOver(w: string, b: string)
    requires (forall i :: 0 <= i < |w| ==> Wsp(w[i])) && (b == "" || !Wsp(b[0]))
    ensures Skip(w + b) == b
  {
    if w == "" {
      assert w + b == b;
    } else {
      assert (w + b)[1..] == w[1..] + b;
      SkipOver(w[1..], b);
    }
  }

  lemma {:induction false} UnfoldLead(s: string)
    ensures Unfold(s) == "" <==> s == ""
    ensures Unfold(s) != "" && Unfold(s)[0] == '\n' ==> s[0] == '\n'
    ensures |Unfold(s)| > 1 ==> |s| > 1
  {
  }

  lemma FoldedSuffix(s: string, k: nat)
    requires Folded(s) && k <= |s|
    ensures Folded(s[k..])
  {
    forall i: nat | i + 2 < |s[k..]| && s[k..][i] == '\r' && s[k..][i + 1] == '\n' ensures Wsp(s[k..][i + 2]) {
      assert s[k + i] == '\r' && s[k + i + 1] == '\n';
    }
  }

  lemma {:induction false} SkipIs(s: string) returns (k: nat)
    ensures k <= |s| && Skip(s) == s[k..]
  {
    if s != "" && Wsp(s[0]) {
      var j := SkipIs(s[1..]);
      k := j + 1;
    } else {
      k := 0;
    }
  }

  /** Unfolding a field leaves no fold. */
  lemma {:induction false} UnfoldUnfolds(s: string)
    requires Folded(s)
    ensures Unfolded(Unfold(s))
    decreases |s|
  {
    if s != "" {
      if |s| >= 3 && s[..2] == CRLF && Wsp(s[2]) {
        var k := SkipIs(s[2..]);
        FoldedSuffix(s, 2);
        FoldedSuffix(s[2..], k);
        UnfoldUnfolds(Skip(s[2..]));
        ConsUnfolded(' ', Unfold(Skip(s[2..])));
      } else {
        FoldedSuffix(s, 1);
        UnfoldUnfolds(s[1..]);
        UnfoldLead(s[1..]);
        assert |s| >= 3 ==> s[..2] == [s[0], s[1]];
        ConsUnfolded(s[0], Unfold(s[1..]));
      }
    }
  }

  lemma ConsUnfolded(c: char, rest: string)
    requires Unfolded(rest) && !(c == '\r' && |rest| >= 2 && rest[0] == '\n' && Wsp(rest[1]))
    ensures Unfolded([c] + rest)
  {
    forall i: nat ensures !FoldAt([c] + rest, i) {
      assert i > 0 ==> !FoldAt(rest, i - 1);
    }
  }

  lemma CollapseLead(s: string)
    ensures Collapse(s) == "" <==> s == ""
    ensures s != "" ==> (Wsp(Collapse(s)[0]) <==> Wsp(s[0])) && (!Wsp(s[0]) ==> Collapse(s)[0] == s[0])
  {
  }

  lemma {:induction false} CollapseUnfolded(s: string)
    requires Unfolded(s)
    ensures Unfolded(Collapse(s))
    decreases |s|
  {
    if s != "" {
      if Wsp(s[0]) {
        var k := SkipIs(s[1..]);
        UnfoldedSuffix(s, k + 1);
        CollapseUnfolded(Skip(s[1..]));
        assert s[1..][k..] == s[k + 1..];
        ConsUnfolded(' ', Collapse(Skip(s[1..])));
      } else {
        UnfoldedSuffix(s, 1);
        CollapseUnfolded(s[1..]);
        assert !FoldAt(s, 0);
        CollapseLead(s[1..]);
        if |s| > 1 && !Wsp(s[1]) {
          CollapseStep(s[1..]);
          assert s[1..][1..] == s[2..];
          CollapseLead(s[2..]);
        }
        ConsUnfolded(s[0], Collapse(s[1..]));
      }
    }
  }

  lemma UnfoldedSuffix(s: string, k: nat)
    requires Unfolded(s) && k <= |s|
    ensures Unfolded(s[k..])
  {
    forall i: nat ensures !FoldAt(s[k..], i) {
      assert !FoldAt(s, k + i);
    }
  }

  lemma UnfoldedMiddle(a: string, t: string, b: string)
    requires Unfolded(a + t + b)
    ensures Unfolded(t)
  {
    forall i: nat ensures !FoldAt(t, i) {
      assert !FoldAt(a + t + b, |a| + i);
    }
  }

  // ----- a relaxed field is a normal form -----

  lemma LowerKeeps(s: string)
    requires Bare(s)
    ensures Bare(Texts.Lower(s)) && Texts.Lower(Texts.Lower(s)) == Texts.Lower(s)
  {
    assert forall c: char :: Blank(Texts.LowerChar(c)) <==> Blank(c);
    var l := Texts.Lower(s);
    assert forall i :: 0 <= i < |l| ==> Texts.Lower(l)[i] == l[i];
  }

  lemma TrimBare(s: string)
    requires Bare(s)
    ensures Trim(s) == s
  {
    TrimOf("", s, "");
    assert "" + s + "" == s;
  }

  /** A relaxed field begins with its name in lower case and a colon, has no run of whitespace behind it, and is its own relaxed
      form. */
  lemma RelaxedIdempotent(raw: string, lineEnd: string)
    requires ':' in raw && Folded(raw)
    ensures var c := CanonicalHeader(raw, Relaxed, "");
      && FieldName(raw) + ":" <= c
      && CanonicalHeader(c, Relaxed, lineEnd) == CanonicalHeader(raw, Relaxed, lineEnd)
      && (forall i :: |FieldName(raw)| < i < |c| ==> c[i] != '\t')
      && (forall i :: |FieldName(raw)| < i < |c| - 1 ==> !(c[i] == ' ' && c[i + 1] == ' '))
  {
    hide Unfold, Collapse, Words, Trim, Skip, CanonicalHeader, FieldName;
    var value := raw[Colon(raw) + 1..];
    var u := Unfold(value);
    var words := FieldWords(raw);
    var v := Spaced(words);
    RelaxedField(raw, "");
    RelaxedField(raw, lineEnd);
    var a, b := TrimIs(u);
    CollapsedWords(Trim(u));
    FoldedSuffix(raw, Colon(raw) + 1);
    UnfoldUnfolds(value);
    UnfoldedMiddle(a, Trim(u), b);
    CollapseUnfolded(Trim(u));
    UnfoldPlain(v);
    BareCollapse(Trim(u));
    TrimBare(v);
    WordsAre(Trim(u));
    SpacedWords(words);
    SpacedSingly(words);
    var c := FieldName(raw) + ":" + v;
    assert FieldName(raw) + ":" + v + "" == c;
    ColonSplits(FieldName(raw), v);
    NameAgain(raw, v);
    RelaxedField(c, lineEnd);
    assert forall i :: |FieldName(raw)| < i < |c| ==> c[i] == v[i - |FieldName(raw)| - 1];
  }

  lemma BareCollapse(t: string)
    requires Bare(t)
    ensures Bare(Collapse(t))
  {
    if t != "" {
      CollapseBare(t);
    }
  }

  lemma NameAgain(raw: string, value: string)
    requires ':' in raw && ':' !in FieldName(raw)
    ensures ':' in FieldName(raw) + ":" + value && FieldName(FieldName(raw) + ":" + value) == FieldName(raw)
  {
    hide Trim;
    var name := raw[..Colon(raw)];
    ColonSplits(FieldName(raw), value);
    var a, b := TrimIs(name);
    LowerKeeps(Trim(name));
    TrimBare(FieldName(raw));
  }

  /** Words one space apart hold no tab and no two spaces in a row. */
  lemma {:induction false} SpacedSingly(words: seq<string>)
    requires AllWords(words)
    ensures var v := Spaced(words);
      && (forall i :: 0 <= i < |v| ==> v[i] != '\t')
      && (forall i :: 0 <= i < |v| - 1 ==> !(v[i] == ' ' && v[i + 1] == ' '))
  {
    if words != [] {
      assert Word(words[0]);
      if |words| > 1 {
        var rest := Spaced(words[1..]);
        SpacedSingly(words[1..]);
        SpacedWords(words[1..]);
        var v, n := Spaced(words), |words[0]|;
        assert v == words[0] + (" " + rest);
        forall i | 0 <= i < |v| - 1 ensures !(v[i] == ' ' && v[i + 1] == ' ') {
          assert i > n ==> v[i] == rest[i - n - 1];
          assert i >= n ==> v[i + 1] == rest[i - n];
        }
        forall i | 0 <= i < |v| ensures v[i] != '\t' {
          assert i > n ==> v[i] == rest[i - n - 1];
        }
      }
    }
  }

  // ----- the examples of section 3.4.5 of RFC 6376 -----

  lemma FirstExample()
    ensures CanonicalHeader("A: X", Relaxed, CRLF) == "a:X\r\n"
  {
    hide Unfold, Trim, Words, CanonicalHeader, Colon;
    RelaxedParts("A", " X", CRLF);
    assert "A" + ":" + " X" == "A: X";
    TrimBare("A");
    UnfoldPlain(" X");
    assert " X" == " " + "X" + "";
    TrimOf(" ", "X", "");
    OneWord("X");
    assert Texts.Lower("A") == "a";
  }

  lemma OneWord(w: string)
    requires Word(w)
    ensures Words(w) == [w]
  {
    WordFirst(w, "");
    assert w + "" == w && w[|w|..] == "";
  }

  lemma TwoWords(v: string, space: string, w: string)
    requires Word(v) && Word(w) && space != "" && forall i :: 0 <= i < |space| ==> Wsp(space[i])
    ensures Words(v + (space + w)) == [v, w]
  {
    WordFirst(v, space + w);
    assert (v + (space + w))[|v|..] == space + w;
    SkipOver(space, w);
    WordsAre(space + w);
    OneWord(w);
  }

  lemma SecondValue()
    ensures Unfold(" Y\t\r\n\tZ  ") == " Y\t Z  " && Trim(" Y\t Z  ") == "Y\t Z"
  {
    hide Unfold, Trim;
    UnfoldFirst(" Y\t", "\t", "Z  ");
    UnfoldPlain("Z  ");
    assert " Y\t" + (CRLF + ("\t" + "Z  ")) == " Y\t\r\n\tZ  ";
    assert " Y\t" + (" " + "Z  ") == " Y\t Z  ";
    TrimOf(" ", "Y\t Z", "  ");
    assert " " + "Y\t Z" + "  " == " Y\t Z  ";
  }

  lemma SecondName()
    ensures Texts.Lower(Trim("B ")) == "b"
  {
    hide Trim;
    TrimOf("", "B", " ");
    assert "" + "B" + " " == "B ";
    assert Texts.Lower("B") == "b";
  }

  lemma RelaxedParts(name: string, value: string, lineEnd: string)
    requires ':' !in name
    ensures CanonicalHeader(name + ":" + value, Relaxed, lineEnd) ==
            Texts.Lower(Trim(name)) + ":" + Spaced(Words(Trim(Unfold(value)))) + lineEnd
  {
    hide Unfold, Trim, Words, CanonicalHeader, Colon;
    ColonSplits(name, value);
    RelaxedField(name + ":" + value, lineEnd);
  }

  lemma SecondExample()
    ensures CanonicalHeader("B : Y\t\r\n\tZ  ", Relaxed, CRLF) == "b:Y Z\r\n"
  {
    hide Unfold, Trim, Words, CanonicalHeader, Texts.Lower, Spaced, Colon;
    RelaxedParts("B ", " Y\t\r\n\tZ  ", CRLF);
    assert "B " + ":" + " Y\t\r\n\tZ  " == "B : Y\t\r\n\tZ  ";
    SecondName();
    SecondValue();
    TwoWords("Y", "\t ", "Z");
    assert "Y" + ("\t " + "Z") == "Y\t Z";
    SpacedTwo("Y", "Z");
  }

  lemma SpacedTwo(v: string, w: string)
    ensures Spaced([v, w]) == v + (" " + w)
  {
    assert [v, w][1..] == [w];
  }

  // ----- which fields are signed -----

  function Match(h: RawHeader, name: string): seq<RawHeader> {
    if h.name == name then [h] else []
  }

  function Named(headers: seq<RawHeader>, name: string): seq<RawHeader> {
    if headers == [] then [] else Match(headers[0], name) + Named(headers[1..], name)
  }

  function Times(names: seq<string>, name: string): nat {
    if names == [] then 0
    else Times(names[..|names| - 1], name) + if names[|names| - 1] == name then 1 else 0
  }

  /** What one more mention of a name selects: the last field of that name not yet used, if any. */
  function Pick(headers: seq<RawHeader>, name: string, used: nat): seq<RawHeader> {
    var matches := Named(headers, name);
    if used < |matches| then [matches[|matches| - 1 - used]] else []
  }

  function Selected(headers: seq<RawHeader>, names: seq<string>): seq<RawHeader> {
    if names == [] then []
    else
      var before, name := names[..|names| - 1], names[|names| - 1];
      Selected(headers, before) + Pick(headers, name, Times(before, name))
  }

  function Written(headers: seq<RawHeader>, mode: Mode): string {
    if headers == [] then ""
    else Written(headers[..|headers| - 1], mode) + CanonicalHeader(headers[|headers| - 1].raw, mode, CRLF)
  }

  /** The bytes that are signed: the chosen fields, and the signature field without its own value and line end. */
  function SignedBytes(headers: seq<RawHeader>, signature: string, names: seq<string>, mode: Mode): string {
    Written(Selected(headers, names), mode) + CanonicalHeader(signature, mode, "")
  }

  function UsedOf(consumed: map<string, nat>, name: string): nat {
    if name in consumed then consumed[name] else 0
  }

  /** The table says how often each name came up. */
  ghost predicate Counted(consumed: map<string, nat>, names: seq<string>) {
    forall n: string :: Times(names, n) == UsedOf(consumed, n)
  }

  lemma CountedStep(consumed: map<string, nat>, names: seq<string>, name: string)
    requires Counted(consumed, names)
    ensures Counted(consumed[name := UsedOf(consumed, name) + 1], names + [name])
  {
    hide Times;
    forall n: string ensures Times(names + [name], n) == UsedOf(consumed[name := UsedOf(consumed, name) + 1], n) {
      TimesSnoc(names, name, n);
    }
  }

  lemma SelectedSnoc(headers: seq<RawHeader>, names: seq<string>, name: string)
    ensures Selected(headers, names + [name]) == Selected(headers, names) + Pick(headers, name, Times(names, name))
  {
    hide Pick, Times;
    assert (names + [name])[..|names|] == names;
  }

  lemma WrittenSnoc(headers: seq<RawHeader>, h: RawHeader, mode: Mode)
    ensures Written(headers + [h], mode) == Written(headers, mode) + CanonicalHeader(h.raw, mode, CRLF)
    ensures Written(headers + [], mode) == Written(headers, mode)
  {
    hide CanonicalHeader;
    assert (headers + [h])[..|headers|] == headers;
    assert headers + [] == headers;
  }

  method CanonicalizeSignedHeaders(headers: seq<RawHeader>, signature: string, names: seq<string>, mode: Mode)
    returns (r: string)
    ensures r == SignedBytes(headers, signature, names, mode)
  {
    hide CanonicalHeader, Named, Times, Written, Selected, Counted, UsedOf;
    var consumed: map<string, nat> := map[];
    var text := "";
    NothingCounted(headers, mode);
    for i := 0 to |names|
      invariant Counted(consumed, names[..i])
      invariant text == Written(Selected(headers, names[..i]), mode)
    {
      var name := names[i];
      assert names[..i + 1] == names[..i] + [name];
      CountedStep(consumed, names[..i], name);
      SelectedSnoc(headers, names[..i], name);
      var matches := Named(headers, name);
      var used := UsedOf(consumed, name);
      TimesCounted(consumed, names[..i], name);
      consumed := consumed[name := used + 1];
      if used < |matches| {
        var header := matches[|matches| - 1 - used];
        WrittenSnoc(Selected(headers, names[..i]), header, mode);
        text := text + CanonicalHeader(header.raw, mode, CRLF);
      } else {
        assert Selected(headers, names[..i]) + [] == Selected(headers, names[..i]);
      }
    }
    assert names[..|names|] == names;
    return text + CanonicalHeader(signature, mode, "");
  }

  lemma TimesCounted(consumed: map<string, nat>, names: seq<string>, name: string)
    requires Counted(consumed, names)
    ensures Times(names, name) == UsedOf(consumed, name)
  {
  }

  lemma NothingCounted(headers: seq<RawHeader>, mode: Mode)
    ensures Counted(map[], []) && Written(Selected(headers, []), mode) == ""
  {
  }

  lemma TimesSnoc(names: seq<string>, name: string, n: string)
    ensures Times(names + [name], n) == Times(names, n) + if name == n then 1 else 0
  {
    assert (names + [name])[..|names|] == names;
  }

  // ----- fields are taken from the bottom up -----

  lemma Regroup(x: seq<RawHeader>, y: seq<RawHeader>, z: seq<RawHeader>)
    ensures x + (y + z) == (x + y) + z
  {
  }

  lemma {:induction false} NamedJoins(a: seq<RawHeader>, b: seq<RawHeader>, n: string)
    ensures Named(a + b, n) == Named(a, n) + Named(b, n)
  {
    hide Match;
    if a == [] {
      assert a + b == b && Named(a, n) + Named(b, n) == Named(b, n);
    } else {
      NamedJoins(a[1..], b, n);
      assert (a + b)[1..] == a[1..] + b;
      Regroup(Match(a[0], n), Named(a[1..], n), Named(b, n));
    }
  }

  lemma {:induction false} NamedAre(headers: seq<RawHeader>, n: string)
    ensures forall i :: 0 <= i < |Named(headers, n)| ==> Named(headers, n)[i].name == n
  {
    if headers != [] {
      NamedAre(headers[1..], n);
    }
  }

  lemma NamedOne(h: RawHeader, n: string)
    ensures Named([h], n) == if h.name == n then [h] else []
  {
    assert [h][1..] == [];
  }

  /** The last fields of a list, the lowest first. */
  function BottomUp(s: seq<RawHeader>, m: nat): (r: seq<RawHeader>)
    requires m <= |s|
    ensures |r| == m && forall i :: 0 <= i < m ==> r[i] == s[|s| - 1 - i]
  {
    if m == 0 then [] else BottomUp(s, m - 1) + [s[|s| - m]]
  }

  function Taken(headers: seq<RawHeader>, names: seq<string>, n: string): nat {
    if Times(names, n) < |Named(headers, n)| then Times(names, n) else |Named(headers, n)|
  }

  /** Each name contributes as many fields as it is listed and exist, distinct and from the bottom up. */
  lemma {:induction false} TakenFromTheBottom(headers: seq<RawHeader>, names: seq<string>, n: string)
    ensures Named(Selected(headers, names), n) == BottomUp(Named(headers, n), Taken(headers, names, n))
    decreases |names|
  {
    hide Named;
    if names == [] {
      NoneNamed(n);
    } else {
      var before, name := names[..|names| - 1], names[|names| - 1];
      TakenFromTheBottom(headers, before, n);
      var pick := Pick(headers, name, Times(before, name));
      NamedJoins(Selected(headers, before), pick, n);
      NamedAre(headers, name);
      NoneNamed(n);
      if pick != [] {
        NamedOne(pick[0], n);
        assert pick == [pick[0]];
      }
    }
  }

  lemma NoneNamed(n: string)
    ensures Named([], n) == []
  {
  }

  /** Only fields with a listed name bear on what is selected. */
  lemma {:induction false} OnlyListed(a: seq<RawHeader>, b: seq<RawHeader>, names: seq<string>)
    requires forall n :: n in names ==> Named(a, n) == Named(b, n)
    ensures Selected(a, names) == Selected(b, names)
    decreases |names|
  {
    hide Named, Times;
    if names != [] {
      assert names[|names| - 1] in names;
      OnlyListed(a, b, names[..|names| - 1]);
    }
  }

  lemma NamedInserted(a: seq<RawHeader>, x: RawHeader, b: seq<RawHeader>, n: string)
    ensures Named(a + [x] + b, n) == Named(a, n) + (if x.name == n then [x] else []) + Named(b, n)
    ensures Named(a + b, n) == Named(a, n) + Named(b, n)
  {
    NamedJoins(a + [x], b, n);
    NamedJoins(a, [x], n);
    NamedOne(x, n);
    NamedJoins(a, b, n);
  }

  /** A field that is not listed can be added anywhere without touching the signed bytes. */
  lemma UnlistedIgnored(a: seq<RawHeader>, x: RawHeader, b: seq<RawHeader>, signature: string, names: seq<string>, mode: Mode)
    requires x.name !in names
    ensures SignedBytes(a + [x] + b, signature, names, mode) == SignedBytes(a + b, signature, names, mode)
  {
    hide Named, Written, CanonicalHeader;
    forall n | n in names ensures Named(a + [x] + b, n) == Named(a + b, n) {
      NamedInserted(a, x, b, n);
    }
    OnlyListed(a + [x] + b, a + b, names);
  }

  // ----- a name listed more often than it occurs -----

  function Weight(headers: seq<RawHeader>, mode: Mode): nat {
    if headers == [] then 0
    else Weight(headers[..|headers| - 1], mode) + |CanonicalHeader(headers[|headers| - 1].raw, mode, CRLF)|
  }

  function Others(headers: seq<RawHeader>, name: string): seq<RawHeader> {
    if headers == [] then []
    else Others(headers[..|headers| - 1], name)
         + if headers[|headers| - 1].name == name then [] else [headers[|headers| - 1]]
  }

  lemma {:induction false} WrittenLength(headers: seq<RawHeader>, mode: Mode)
    ensures |Written(headers, mode)| == Weight(headers, mode)
  {
    hide CanonicalHeader;
    if headers != [] {
      WrittenLength(headers[..|headers| - 1], mode);
    }
  }

  lemma {:induction false} WeightJoins(a: seq<RawHeader>, b: seq<RawHeader>, mode: Mode)
    ensures Weight(a + b, mode) == Weight(a, mode) + Weight(b, mode)
    decreases |b|
  {
    hide CanonicalHeader;
    if b == [] {
      assert a + b == a;
    } else {
      assert (a + b)[..|a + b| - 1] == a + b[..|b| - 1];
      WeightJoins(a, b[..|b| - 1], mode);
    }
  }

  lemma WeightOne(x: RawHeader, mode: Mode)
    ensures Weight([x], mode) == |CanonicalHeader(x.raw, mode, CRLF)| > 0
  {
    assert [x][..0] == [];
  }

  lemma {:induction false} WeightSplits(headers: seq<RawHeader>, n: string, mode: Mode)
    ensures Weight(headers, mode) == Weight(Named(headers, n), mode) + Weight(Others(headers, n), mode)
    decreases |headers|
  {
    hide CanonicalHeader, Named;
    if headers == [] {
      NoneNamed(n);
    } else {
      var front, last := headers[..|headers| - 1], headers[|headers| - 1];
      WeightSplits(front, n, mode);
      assert headers == front + [last];
      NamedJoins(front, [last], n);
      NamedOne(last, n);
      WeightJoins(Named(front, n), Named([last], n), mode);
      WeightJoins(Others(front, n), if last.name == n then [] else [last], mode);
      WeightOne(last, mode);
    }
  }

  lemma {:induction false} WeightBottomUp(s: seq<RawHeader>, m: nat, mode: Mode)
    requires m <= |s|
    ensures Weight(BottomUp(s, m), mode) == Weight(s[|s| - m..], mode)
  {
    hide Weight;
    if m == 0 {
      assert s[|s|..] == [] == BottomUp(s, 0);
    } else {
      WeightBottomUp(s, m - 1, mode);
      WeightJoins(BottomUp(s, m - 1), [s[|s| - m]], mode);
      assert s[|s| - m..] == [s[|s| - m]] + s[|s| - (m - 1)..];
      WeightJoins([s[|s| - m]], s[|s| - (m - 1)..], mode);
    }
  }

  lemma {:induction false} OthersJoin(a: seq<RawHeader>, b: seq<RawHeader>, n: string)
    ensures Others(a + b, n) == Others(a, n) + Others(b, n)
    decreases |b|
  {
    if b == [] {
      assert a + b == a;
    } else {
      assert (a + b)[..|a + b| - 1] == a + b[..|b| - 1];
      OthersJoin(a, b[..|b| - 1], n);
    }
  }

  lemma PickSame(a: seq<RawHeader>, b: seq<RawHeader>, name: string, used: nat, n: string)
    requires name != n ==> Named(a, name) == Named(b, name)
    ensures Others(Pick(a, name, used), n) == Others(Pick(b, name, used), n)
  {
    hide Named;
    NamedAre(a, name);
    NamedAre(b, name);
  }

  /** What one name selects does not depend on the fields of another. */
  lemma {:induction false} OthersSame(a: seq<RawHeader>, b: seq<RawHeader>, names: seq<string>, n: string)
    requires forall m :: m != n ==> Named(a, m) == Named(b, m)
    ensures Others(Selected(a, names), n) == Others(Selected(b, names), n)
    decreases |names|
  {
    hide Named, Times, Others, Pick;
    if names != [] {
      var before, name := names[..|names| - 1], names[|names| - 1];
      OthersSame(a, b, before, n);
      OthersJoin(Selected(a, before), Pick(a, name, Times(before, name)), n);
      OthersJoin(Selected(b, before), Pick(b, name, Times(before, name)), n);
      PickSame(a, b, name, Times(before, name), n);
    }
  }

  /** All fields of an over-listed name are signed. */
  lemma SelectedWeight(headers: seq<RawHeader>, names: seq<string>, n: string, mode: Mode)
    requires |Named(headers, n)| <= Times(names, n)
    ensures |Written(Selected(headers, names), mode)| ==
            Weight(Named(headers, n), mode) + Weight(Others(Selected(headers, names), n), mode)
  {
    hide Named, Selected, Times, Others, Weight;
    var s, all := Selected(headers, names), Named(headers, n);
    WrittenLength(s, mode);
    WeightSplits(s, n, mode);
    TakenFromTheBottom(headers, names, n);
    WeightBottomUp(all, |all|, mode);
    assert all[0..] == all;
  }

  /** If a name is listed more often than it occurs, one more field of that name, wherever it is put,
      changes the signed bytes. */
  lemma OverlistedDetects(a: seq<RawHeader>, x: RawHeader, b: seq<RawHeader>, signature: string, names: seq<string>, mode: Mode)
    requires Times(names, x.name) > |Named(a + b, x.name)|
    ensures SignedBytes(a + [x] + b, signature, names, mode) != SignedBytes(a + b, signature, names, mode)
  {
    hide Named, Selected, Times, Others, Weight, Written, CanonicalHeader;
    var n, with, without := x.name, a + [x] + b, a + b;
    NamedInserted(a, x, b, n);
    forall m | m != n ensures Named(with, m) == Named(without, m) {
      NamedInserted(a, x, b, m);
    }
    OthersSame(with, without, names, n);
    SelectedWeight(with, names, n, mode);
    SelectedWeight(without, names, n, mode);
    WeightJoins(Named(a, n) + [x], Named(b, n), mode);
    WeightJoins(Named(a, n), [x], mode);
    WeightJoins(Named(a, n), Named(b, n), mode);
    WeightOne(x, mode);
  }

  lemma NamedThree(x: RawHeader, y: RawHeader, z: RawHeader)
    requires x.name == z.name != y.name
    ensures Named([x, y, z], x.name) == [x, z] && Named([x, y, z], y.name) == [y]
  {
    assert [x, y, z][1..] == [y, z] && [y, z][1..] == [z] && [z][1..] == [];
    assert Named([z], x.name) == [z] && Named([z], y.name) == [];
    assert Named([y, z], x.name) == [z] && Named([y, z], y.name) == [y];
  }

  lemma TimesFour(n: string, m: string)
    requires n != m
    ensures Times([], n) == 0 && Times([n], m) == 0 && Times([n, m], n) == 1 && Times([n, m, n], n) == 2
  {
    hide Times;
    NoneListed(n);
    NoneListed(m);
    TimesSnoc([], n, n);
    TimesSnoc([], n, m);
    TimesSnoc([n], m, n);
    TimesSnoc([n, m], n, n);
    assert [] + [n] == [n] && [n] + [m] == [n, m] && [n, m] + [n] == [n, m, n];
  }

  lemma NoneListed(n: string)
    ensures Times([], n) == 0
  {
  }

  lemma SelectedFour(x: RawHeader, y: RawHeader, z: RawHeader)
    requires x.name == z.name != y.name
    ensures Selected([x, y, z], [x.name, y.name, x.name, x.name]) == [z, y, x]
  {
    hide Named, Times, Selected;
    var n, m, headers := x.name, y.name, [x, y, z];
    NamedThree(x, y, z);
    TimesFour(n, m);
    NothingSelected(headers);
    assert [] + [n] == [n] && [n] + [m] == [n, m] && [n, m] + [n] == [n, m, n] && [n, m, n] + [n] == [n, m, n, n];
    SelectedSnoc(headers, [], n);
    SelectedSnoc(headers, [n], m);
    SelectedSnoc(headers, [n, m], n);
    SelectedSnoc(headers, [n, m, n], n);
    assert [] + [z] == [z] && [z] + [y] == [z, y] && [z, y] + [x] == [z, y, x] && [z, y, x] + [] == [z, y, x];
  }

  /** Three fields, one name listed three times: from the bottom up, in the order of the list, the missing one contributing
      nothing, each with its line end, and the signature field without. */
  lemma SignedExample(x: RawHeader, y: RawHeader, z: RawHeader, signature: string)
    requires x.name == z.name != y.name
    ensures SignedBytes([x, y, z], signature, [x.name, y.name, x.name, x.name], Simple) ==
            z.raw + "\r\n" + (y.raw + "\r\n") + (x.raw + "\r\n") + signature
  {
    hide Named, Times, Selected, Written;
    SelectedFour(x, y, z);
    WrittenThree(z, y, x);
    assert signature + "" == signature;
  }

  lemma NothingSelected(headers: seq<RawHeader>)
    ensures Selected(headers, []) == [] && forall n :: Times([], n) == 0
  {
  }

  lemma WrittenThree(a: RawHeader, b: RawHeader, c: RawHeader)
    ensures Written([a, b, c], Simple) == a.raw + "\r\n" + (b.raw + "\r\n") + (c.raw + "\r\n")
  {
    hide Written;
    NothingWritten();
    WrittenSnoc([], a, Simple);
    WrittenSnoc([a], b, Simple);
    WrittenSnoc([a, b], c, Simple);
    assert [] + [a] == [a] && [a] + [b] == [a, b] && [a, b] + [c] == [a, b, c];
    assert "" + (a.raw + "\r\n") == a.raw + "\r\n";
  }

  lemma NothingWritten()
    ensures Written([], Simple) == ""
  {
  }
}
