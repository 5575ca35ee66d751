/** Canonical bodies (sections 3.4.3 and 3.4.4 of RFC 6376). */
module DkimBody {

  const CRLF := "\r\n"

  // ----- lines -----

  /** Every line end becomes CRLF; a CR that ends no line stays. */
  function Normalize(s: string): string
    decreases |s|
  {
    if s == "" then ""
    else if |s| >= 2 && s[..2] == CRLF then CRLF + Normalize(s[2..])
    else if s[0] == '\n' then CRLF + Normalize(s[1..])
    else [s[0]] + Normalize(s[1..])
  }

  function Split(s: string): (r: seq<string>)
    ensures r != []
    decreases |s|
  {
    if s == "" then [""]
    else if |s| >= 2 && s[..2] == CRLF then [""] + Split(s[2..])
    else
      var rest := Split(s[1..]);
      [[s[0]] + rest[0]] + rest[1..]
  }

  function Lines(body: string): seq<string> {
    Split(Normalize(body))
  }

  function Join(lines: seq<string>): string {
    if lines == [] then "" else if |lines| == 1 then lines[0] else lines[0] + (CRLF + Join(lines[1..]))
  }

  predicate Flat(line: string) {
    forall i :: 0 <= i < |line| ==> line[i] != '\n'
  }

  ghost predicate AllFlat(lines: seq<string>) {
    forall i :: 0 <= i < |lines| ==> Flat(lines[i])
  }

  lemma {:induction false} LinesFlat(body: string)
    ensures AllFlat(Lines(body))
    decreases |body|
  {
    if body == "" {
    } else if |body| >= 2 && body[..2] == CRLF {
      LinesFlat(body[2..]);
      BreakSplits(Normalize(body[2..]));
    } else if body[0] == '\n' {
      LinesFlat(body[1..]);
      BreakSplits(Normalize(body[1..]));
    } else {
      LinesFlat(body[1..]);
      LetterSplits(body);
    }
  }

  lemma BreakSplits(rest: string)
    ensures Split(CRLF + rest) == [""] + Split(rest)
  {
    assert (CRLF + rest)[..2] == CRLF && (CRLF + rest)[2..] == rest;
  }

  /** A CR that ends no line is not taken for one after normalising either. */
  lemma NormalLead(s: string)
    ensures Normalize(s) == "" <==> s == ""
    ensures s != "" && s[0] != '\n' ==> Normalize(s)[0] == s[0]
    ensures s != "" ==> Normalize(s)[0] != '\n'
  {
  }

  lemma LetterSplits(body: string)
    requires body != "" && body[0] != '\n' && !(|body| >= 2 && body[..2] == CRLF)
    ensures var rest := Lines(body[1..]); Lines(body) == [[body[0]] + rest[0]] + rest[1..]
  {
    var n := Normalize(body[1..]);
    NormalLead(body[1..]);
    assert Normalize(body) == [body[0]] + n;
    assert ([body[0]] + n)[1..] == n;
    assert |n| >= 1 ==> ([body[0]] + n)[1] == n[0];
  }

  /** A character that begins no line end is read as itself. */
  lemma LetterFirst(c: char, rest: string)
    requires c != '\n' && (rest == "" || rest[0] != '\n')
    ensures Normalize([c] + rest) == [c] + Normalize(rest)
    ensures Split([c] + rest) == [[c] + Split(rest)[0]] + Split(rest)[1..]
  {
    assert ([c] + rest)[1..] == rest;
    assert rest != "" ==> ([c] + rest)[1] == rest[0];
  }

  lemma BreakFirst(rest: string)
    ensures Normalize(CRLF + rest) == CRLF + Normalize(rest)
  {
    assert (CRLF + rest)[..2] == CRLF && (CRLF + rest)[2..] == rest;
  }

  lemma Prepend(c: char, l: string, x: string)
    ensures [c] + (l + x) == ([c] + l) + x
  {
  }

  lemma {:induction false} FlatSplits(line: string, rest: string)
    requires Flat(line)
    ensures Split(line + (CRLF + rest)) == [line] + Split(rest)
    ensures Split(line) == [line]
    ensures Normalize(line + (CRLF + rest)) == line + (CRLF + Normalize(rest))
    ensures Normalize(line) == line
    decreases |line|
  {
    if line == "" {
      assert line + (CRLF + rest) == CRLF + rest && line + (CRLF + Normalize(rest)) == CRLF + Normalize(rest);
      BreakSplits(rest);
      BreakFirst(rest);
    } else {
      hide Normalize, Split;
      var c, l, tail := line[0], line[1..], line[1..] + (CRLF + rest);
      FlatSplits(l, rest);
      assert line == [c] + l;
      Prepend(c, l, CRLF + rest);
      Prepend(c, l, CRLF + Normalize(rest));
      assert tail[0] == if |l| > 0 then l[0] else '\r';
      LetterFirst(c, tail);
      LetterFirst(c, l);
    }
  }

  lemma {:induction false} JoinSplits(lines: seq<string>)
    requires lines != [] && AllFlat(lines)
    ensures Split(Join(lines)) == lines
  {
    FlatSplits(lines[0], Join(lines[1..]));
    if |lines| > 1 {
      JoinSplits(lines[1..]);
    }
  }

  lemma {:induction false} JoinNormal(lines: seq<string>)
    requires AllFlat(lines)
    ensures Normalize(Join(lines)) == Join(lines)
  {
    if lines != [] {
      FlatSplits(lines[0], Join(lines[1..]));
      JoinNormal(lines[1..]);
    }
  }

  /** Lines that are joined are the lines that are read. */
  lemma JoinLines(lines: seq<string>)
    requires lines != [] && AllFlat(lines)
    ensures Lines(Join(lines)) == lines
  {
    JoinNormal(lines);
    JoinSplits(lines);
  }

  // ----- whitespace in a line -----

  predicate Wsp(c: char) {
    c == ' ' || c == '\t'
  }

  function Skip(s: string): (r: string)
    ensures |r| <= |s| && (r == "" || !Wsp(r[0]))
  {
    if s != "" && Wsp(s[0]) then Skip(s[1..]) else s
  }

  /** Every run of whitespace becomes one space. */
  function Collapse(s: string): string
    decreases |s|
  {
    if s == "" then "" else if Wsp(s[0]) then " " + Collapse(Skip(s[1..])) else [s[0]] + Collapse(s[1..])
  }

  function StripEnd(s: string): string {
    if s != "" && Wsp(s[|s| - 1]) then StripEnd(s[..|s| - 1]) else s
  }

  function Reduced(line: string): string {
    StripEnd(Collapse(line))
  }

  // ----- what whitespace separates -----

  function FirstWord(s: string): (r: string)
    ensures |r| <= |s| && r == s[..|r|]
    ensures s != "" && !Wsp(s[0]) ==> r != ""
    ensures forall i :: 0 <= i < |r| ==> !Wsp(r[i])
    ensures |r| < |s| ==> Wsp(s[|r|])
  {
    if s == "" || Wsp(s[0]) then "" else [s[0]] + FirstWord(s[1..])
  }

  /** The words of a line, without the whitespace around them. */
  function Words(s: string): seq<string>
    decreases |s|
  {
    if s == "" then [] else if Wsp(s[0]) then Words(s[1..]) else [FirstWord(s)] + Words(s[|FirstWord(s)|..])
  }

  /** Whether whitespace stands before the first word. */
  predicate Indented(line: string) {
    line != "" && Wsp(line[0]) && Words(line) != []
  }

  /** Two lines that differ only in runs of whitespace and in whitespace at the end. */
  predicate Alike(l: string, m: string) {
    Words(l) == Words(m) && (Indented(l) <==> Indented(m))
  }

  function Spaced(words: seq<string>): string {
    if words == [] then "" else if |words| == 1 then words[0] else words[0] + (" " + Spaced(words[1..]))
  }

  function Spell(indented: bool, words: seq<string>): string {
    (if indented then " " else "") + Spaced(words)
  }

  predicate Word(w: string) {
    w != "" && forall i :: 0 <= i < |w| ==> !Wsp(w[i])
  }

  ghost predicate AllWords(words: seq<string>) {
    forall i :: 0 <= i < |words| ==> Word(words[i])
  }

  lemma {:induction false} WordsAre(s: string)
    ensures AllWords(Words(s)) && Words(Skip(s)) == Words(s)
    decreases |s|
  {
    if s != "" {
      if Wsp(s[0]) {
        WordsAre(s[1..]);
      } else {
        WordsAre(s[|FirstWord(s)|..]);
      }
    }
  }

  lemma {:induction false} CollapseWord(w: string, rest: string)
    requires forall i :: 0 <= i < |w| ==> !Wsp(w[i])
    ensures Collapse(w + rest) == w + Collapse(rest)
  {
    if w == "" {
      assert w + rest == rest;
    } else {
      CollapseWord(w[1..], rest);
      assert w == [w[0]] + w[1..];
      Prepend(w[0], w[1..], rest);
      Prepend(w[0], w[1..], Collapse(rest));
      assert (w + rest)[1..] == w[1..] + rest;
    }
  }

  lemma {:induction false} StripJoin(x: string, y: string)
    ensures StripEnd(x + y) == if StripEnd(y) == "" then StripEnd(x) else x + StripEnd(y)
    decreases |y|
  {
    if y == "" {
      assert x + y == x;
    } else if Wsp(y[|y| - 1]) {
      assert (x + y)[..|x + y| - 1] == x + y[..|y| - 1];
      StripJoin(x, y[..|y| - 1]);
    }
  }

  lemma SpacedFilled(words: seq<string>)
    requires AllWords(words)
    ensures Spaced(words) == "" <==> words == []
  {
    if words != [] {
      assert Word(words[0]);
    }
  }

  lemma {:induction false} ReducedSpaced(s: string)
    requires s == "" || !Wsp(s[0])
    ensures Reduced(s) == Spaced(Words(s))
    decreases |s|
  {
    if s != "" {
      var w := FirstWord(s);
      var rest := s[|w|..];
      assert s == w + rest;
      CollapseWord(w, rest);
      WordsAre(s);
      if rest != "" {
        var t := Skip(rest[1..]);
        WordsAre(rest[1..]);
        ReducedSpaced(t);
        SpacedFilled(Words(t));
        StripJoin(" ", Collapse(t));
        StripJoin(w, " " + Collapse(t));
      } else {
        assert w + Collapse("") == w;
      }
    }
  }

  /** A reduced line is its words, one space apart, and one in front if it was indented. */
  lemma ReducedIs(line: string)
    ensures Reduced(line) == Spell(Indented(line), Words(line))
  {
    if line != "" && Wsp(line[0]) {
      var t := Skip(line[1..]);
      WordsAre(line[1..]);
      ReducedSpaced(t);
      SpacedFilled(Words(t));
      StripJoin(" ", Collapse(t));
    } else {
      ReducedSpaced(line);
      assert Spell(false, Words(line)) == Spaced(Words(line));
    }
  }

  lemma {:induction false} WordFirst(w: string, rest: string)
    requires Word(w) && (rest == "" || Wsp(rest[0]))
    ensures FirstWord(w + rest) == w
  {
    if |w| > 1 {
      WordFirst(w[1..], rest);
    } else {
      assert (w + rest)[1..] == rest;
    }
    assert (w + rest)[1..] == w[1..] + rest;
    assert w == [w[0]] + w[1..];
  }

  lemma {:induction false} SpacedWords(words: seq<string>)
    requires AllWords(words)
    ensures Words(Spaced(words)) == words
    ensures words != [] ==> Spaced(words) != "" && !Wsp(Spaced(words)[0])
  {
    if words != [] {
      assert Word(words[0]);
      var w := words[0];
      if |words| == 1 {
        assert w + "" == w;
        WordFirst(w, "");
        assert Words(w[|w|..]) == [];
      } else {
        var rest := " " + Spaced(words[1..]);
        SpacedWords(words[1..]);
        WordFirst(w, rest);
        assert (w + rest)[|w|..] == rest;
        assert rest[1..] == Spaced(words[1..]);
      }
    }
  }

  lemma SpellReads(indented: bool, words: seq<string>)
    requires AllWords(words)
    ensures Words(Spell(indented, words)) == words
    ensures Indented(Spell(indented, words)) <==> indented && words != []
  {
    SpacedWords(words);
    if indented {
      assert Spell(indented, words)[1..] == Spaced(words);
    } else {
      assert Spell(indented, words) == Spaced(words);
    }
  }

  /** Reducing keeps the words of a line, and two lines reduce alike exactly when they differ only in whitespace. */
  lemma ReducedTells(l: string, m: string)
    ensures Reduced(l) == Reduced(m) <==> Alike(l, m)
    ensures Reduced(Reduced(l)) == Reduced(l)
  {
    hide Reduced, Words, Spell;
    ReducedIs(l);
    ReducedIs(m);
    WordsAre(l);
    WordsAre(m);
    SpellReads(Indented(l), Words(l));
    SpellReads(Indented(m), Words(m));
    ReducedIs(Reduced(l));
  }

  lemma {:induction false} CollapseFlat(s: string)
    requires Flat(s)
    ensures Flat(Collapse(s)) && Flat(Skip(s))
    decreases |s|
  {
    if s != "" {
      CollapseFlat(s[1..]);
      if Wsp(s[0]) {
        CollapseFlat(Skip(s[1..]));
      }
    }
  }

  lemma {:induction false} StripFlat(s: string)
    requires Flat(s)
    ensures Flat(StripEnd(s))
  {
    if s != "" && Wsp(s[|s| - 1]) {
      StripFlat(s[..|s| - 1]);
    }
  }

  // ----- canonical bodies -----

  datatype Mode = Simple | Relaxed

  function Reshape(lines: seq<string>, mode: Mode): (r: seq<string>)
    ensures |r| == |lines|
    ensures forall i :: 0 <= i < |lines| ==> r[i] == if mode == Relaxed then Reduced(lines[i]) else lines[i]
  {
    if lines == [] then []
    else [if mode == Relaxed then Reduced(lines[0]) else lines[0]] + Reshape(lines[1..], mode)
  }

  /** The lines without the empty ones at the end. */
  function Kept(lines: seq<string>): seq<string> {
    if lines != [] && lines[|lines| - 1] == "" then Kept(lines[..|lines| - 1]) else lines
  }

  function KeptLines(body: string, mode: Mode): seq<string> {
    Kept(Reshape(Lines(body), mode))
  }

  function Canonical(body: string, mode: Mode): string {
    Join(KeptLines(body, mode)) + CRLF
  }

  method CanonicalizeBody(body: string, mode: Mode) returns (r: string)
    ensures r == Canonical(body, mode)
  {
    hide Lines, Reduced, Join;
    var canonical := Reshape(Lines(body), mode);
    while |canonical| > 0 && canonical[|canonical| - 1] == ""
      invariant Kept(canonical) == KeptLines(body, mode)
      decreases |canonical|
    {
      canonical := canonical[..|canonical| - 1];
    }
    return Join(canonical) + CRLF;
  }

  // ----- the lines of a canonical body -----

  lemma {:induction false} KeptIs(lines: seq<string>)
    ensures Kept(lines) <= lines
    ensures Kept(lines) == [] || Kept(lines)[|Kept(lines)| - 1] != ""
    ensures forall i :: |Kept(lines)| <= i < |lines| ==> lines[i] == ""
    decreases |lines|
  {
    if lines != [] && lines[|lines| - 1] == "" {
      KeptIs(lines[..|lines| - 1]);
    }
  }

  lemma ReshapedFlat(lines: seq<string>, mode: Mode)
    requires AllFlat(lines)
    ensures AllFlat(Reshape(lines, mode))
  {
    forall i | 0 <= i < |lines| ensures Flat(Reshape(lines, mode)[i]) {
      CollapseFlat(lines[i]);
      StripFlat(Collapse(lines[i]));
    }
  }

  lemma KeptFlat(body: string, mode: Mode)
    ensures AllFlat(KeptLines(body, mode))
  {
    LinesFlat(body);
    ReshapedFlat(Lines(body), mode);
    KeptIs(Reshape(Lines(body), mode));
    assert forall i :: 0 <= i < |KeptLines(body, mode)| ==> KeptLines(body, mode)[i] == Reshape(Lines(body), mode)[i];
  }

  lemma {:induction false} JoinSnoc(lines: seq<string>)
    requires lines != []
    ensures Join(lines + [""]) == Join(lines) + CRLF
  {
    assert (lines + [""])[1..] == lines[1..] + [""];
    if |lines| == 1 {
      assert lines[1..] + [""] == [""];
    } else {
      JoinSnoc(lines[1..]);
      assert lines[0] + (CRLF + (Join(lines[1..]) + CRLF)) == lines[0] + (CRLF + Join(lines[1..])) + CRLF;
    }
  }

  /** The lines of a canonical body are the lines it kept, and one more that is empty. */
  lemma CanonicalLines(body: string, mode: Mode)
    ensures var k := KeptLines(body, mode);
      Lines(Canonical(body, mode)) == if k == [] then ["", ""] else k + [""]
  {
    hide Lines, KeptLines;
    var k := KeptLines(body, mode);
    KeptFlat(body, mode);
    if k == [] {
      var none := ["", ""];
      assert none[1..] == [""] && Join(none) == CRLF && Join(k) + CRLF == CRLF;
      JoinLines(none);
    } else {
      JoinSnoc(k);
      JoinLines(k + [""]);
    }
  }

  // ----- equal canonical bodies -----

  function Pad(lines: seq<string>, i: nat): string {
    if i < |lines| then lines[i] else ""
  }

  /** Lists of lines keep the same lines exactly when they agree line by line, missing lines counting as empty. */
  lemma KeptTells(a: seq<string>, b: seq<string>)
    ensures Kept(a) == Kept(b) <==> forall i: nat :: Pad(a, i) == Pad(b, i)
  {
    hide Kept;
    KeptIs(a);
    KeptIs(b);
    var x, y := Kept(a), Kept(b);
    forall i: nat ensures Pad(a, i) == Pad(x, i) && Pad(b, i) == Pad(y, i) {
      assert i < |x| ==> x[i] == a[i];
      assert i < |y| ==> y[i] == b[i];
    }
    if forall i: nat :: Pad(a, i) == Pad(b, i) {
      assert forall i: nat :: Pad(x, i) == Pad(y, i);
      SamePad(x, y);
    }
  }

  lemma SamePad(x: seq<string>, y: seq<string>)
    requires forall i: nat :: Pad(x, i) == Pad(y, i)
    requires (x == [] || x[|x| - 1] != "") && (y == [] || y[|y| - 1] != "")
    ensures x == y
  {
    assert x != [] ==> Pad(x, |x| - 1) == Pad(y, |x| - 1);
    assert y != [] ==> Pad(x, |y| - 1) == Pad(y, |y| - 1);
    forall i | 0 <= i < |x| ensures x[i] == y[i] {
      assert Pad(x, i) == Pad(y, i);
    }
  }

  /** Two bodies are canonically equal exactly when they keep the same lines. */
  lemma CanonicalTells(a: string, b: string, mode: Mode)
    ensures Canonical(a, mode) == Canonical(b, mode) <==> KeptLines(a, mode) == KeptLines(b, mode)
  {
    hide Lines, KeptLines;
    CanonicalLines(a, mode);
    CanonicalLines(b, mode);
    var x, y := KeptLines(a, mode), KeptLines(b, mode);
    if Canonical(a, mode) == Canonical(b, mode) {
      KeptEnds(a, mode);
      KeptEnds(b, mode);
      var l, m := Lines(Canonical(a, mode)), Lines(Canonical(b, mode));
      assert x != [] ==> l[..|l| - 1] == x;
      assert y != [] ==> m[..|m| - 1] == y;
      assert x == [] ==> l[..|l| - 1] == [""];
      assert y == [] ==> m[..|m| - 1] == [""];
    }
  }

  lemma KeptEnds(body: string, mode: Mode)
    ensures var k := KeptLines(body, mode); k == [] || k[|k| - 1] != ""
  {
    KeptIs(Reshape(Lines(body), mode));
  }

  /** Simple bodies are equal exactly when their lines are, empty lines at the end aside. */
  lemma SimpleExactly(a: string, b: string)
    ensures Canonical(a, Simple) == Canonical(b, Simple) <==> forall i: nat :: Pad(Lines(a), i) == Pad(Lines(b), i)
  {
    hide Lines, Kept;
    CanonicalTells(a, b, Simple);
    KeptTells(Lines(a), Lines(b));
    assert Reshape(Lines(a), Simple) == Lines(a) && Reshape(Lines(b), Simple) == Lines(b);
  }

  /** Relaxed bodies are equal exactly when, line by line, they differ only in runs of whitespace and in
      whitespace at the end, missing lines counting as empty. */
  lemma RelaxedExactly(a: string, b: string)
    ensures Canonical(a, Relaxed) == Canonical(b, Relaxed) <==>
            forall i: nat :: Alike(Pad(Lines(a), i), Pad(Lines(b), i))
  {
    hide Lines, Kept, Reduced, Alike;
    CanonicalTells(a, b, Relaxed);
    var x, y := Reshape(Lines(a), Relaxed), Reshape(Lines(b), Relaxed);
    KeptTells(x, y);
    forall i: nat ensures Pad(x, i) == Pad(y, i) <==> Alike(Pad(Lines(a), i), Pad(Lines(b), i)) {
      ReducedTells(Pad(Lines(a), i), Pad(Lines(b), i));
      NothingReduces();
    }
  }

  lemma NothingReduces()
    ensures Reduced("") == ""
  {
  }

  // ----- canonical bodies are normal forms -----

  /** Canonicalising again, with the same mode or a weaker one, changes nothing. */
  lemma CanonicalIdempotent(body: string, mode: Mode, again: Mode)
    requires again == mode || again == Simple
    ensures Canonical(Canonical(body, mode), again) == Canonical(body, mode)
  {
    hide Lines, Kept, Reduced, KeptLines;
    var k := KeptLines(body, mode);
    CanonicalLines(body, mode);
    var l := Lines(Canonical(body, mode));
    KeptReshaped(body, mode, again);
    NothingReduces();
    var r := Reshape(l, again);
    assert r == l by {
      assert forall i :: 0 <= i < |l| ==> l[i] == "" || (i < |k| && l[i] == k[i]);
    }
    KeptEnds(body, mode);
    KeptOf(k, l);
    assert KeptLines(Canonical(body, mode), again) == Kept(r) by { KeptLinesAre(Canonical(body, mode), again); }
  }

  lemma KeptLinesAre(body: string, mode: Mode)
    ensures KeptLines(body, mode) == Kept(Reshape(Lines(body), mode))
  {
  }

  lemma KeptReshaped(body: string, mode: Mode, again: Mode)
    requires again == mode || again == Simple
    ensures var k := KeptLines(body, mode); Reshape(k, again) == k
  {
    hide Lines, Reduced;
    var k := KeptLines(body, mode);
    var x := Reshape(Lines(body), mode);
    KeptIs(x);
    forall i | 0 <= i < |k| ensures Reshape(k, again)[i] == k[i] {
      assert k[i] == x[i];
      ReducedTells(Lines(body)[i], Lines(body)[i]);
    }
  }

  lemma KeptOf(k: seq<string>, l: seq<string>)
    requires k == [] || k[|k| - 1] != ""
    requires l == if k == [] then ["", ""] else k + [""]
    ensures Kept(l) == k
  {
    if k == [] {
      assert l[..1] == [""] && l[..1][..0] == [];
      assert Kept([""]) == [];
    } else {
      assert l[..|l| - 1] == k;
    }
  }

  /** Relaxing after simplifying is relaxing. */
  lemma RelaxedAfterSimple(body: string)
    ensures Canonical(Canonical(body, Simple), Relaxed) == Canonical(body, Relaxed)
  {
    hide Lines, Kept, Reduced, KeptLines;
    var s := Canonical(body, Simple);
    CanonicalTells(s, body, Relaxed);
    RelaxedExactly(s, body);
    CanonicalIdempotent(body, Simple, Simple);
    SimpleExactly(s, body);
    forall i: nat ensures Alike(Pad(Lines(s), i), Pad(Lines(body), i)) {
      assert Pad(Lines(s), i) == Pad(Lines(body), i);
    }
  }

  lemma EmptyBody(mode: Mode)
    ensures Canonical("", mode) == CRLF && Lines("") == [""]
  {
    NothingReduces();
    assert Lines("") == [""];
    assert Reshape([""], mode) == [""];
    assert [""][..0] == [];
    assert Kept([""]) == [];
  }

  lemma NoWords(line: string)
    ensures Alike(line, "") <==> Words(line) == []
  {
  }

  /** One line end is what is left of exactly the bodies whose lines are all blank. For these section 3.4.4 of RFC 6376
      leaves nothing; the source leaves the line end that section 3.4.3 prescribes for simple bodies. */
  lemma BlankExactly(body: string)
    ensures Canonical(body, Relaxed) == CRLF <==> forall i: nat :: Words(Pad(Lines(body), i)) == []
  {
    hide Lines, Words, Alike, Canonical;
    EmptyBody(Relaxed);
    RelaxedExactly(body, "");
    forall i: nat ensures Alike(Pad(Lines(body), i), Pad(Lines(""), i)) <==> Words(Pad(Lines(body), i)) == [] {
      NoWords(Pad(Lines(body), i));
    }
  }

  // ----- the example of section 3.4.5 of RFC 6376 -----

  lemma ExampleLines()
    ensures Lines(" C \r\nD \t E\r\n\r\n\r\n") == [" C ", "D \t E", "", "", ""]
  {
    hide Lines;
    var lines := [" C ", "D \t E", "", "", ""];
    assert lines[1..] == ["D \t E", "", "", ""] && lines[1..][1..] == ["", "", ""] && lines[1..][1..][1..] == ["", ""];
    assert lines[1..][1..][1..][1..] == [""];
    assert Join(["", ""]) == CRLF;
    assert Join(["", "", ""]) == CRLF + CRLF;
    assert Join(lines[1..]) == "D \t E" + (CRLF + (CRLF + CRLF));
    assert Join(lines) == " C \r\nD \t E\r\n\r\n\r\n";
    JoinLines(lines);
  }

  lemma ExampleReduced()
    ensures Reduced(" C ") == " C" && Reduced("D \t E") == "D E"
  {
    hide Reduced;
    ReducedIs(" C ");
    ReducedIs("D \t E");
    assert " C "[1..] == "C ";
    WordFirst("C", " ");
    assert "C" + " " == "C " && "C "[1..] == " " && " "[1..] == "";
    assert Words(" ") == [] && Words("C ") == ["C"] && Words(" C ") == ["C"];
    WordFirst("D", " \t E");
    assert "D" + " \t E" == "D \t E" && "D \t E"[1..] == " \t E";
    assert " \t E"[1..] == "\t E" && "\t E"[1..] == " E" && " E"[1..] == "E";
    WordFirst("E", "");
    assert "E" + "" == "E" && "E"[1..] == "";
    assert Words("E") == ["E"] && Words(" E") == ["E"] && Words("\t E") == ["E"] && Words(" \t E") == ["E"];
    assert Words("D \t E") == ["D", "E"];
    assert ["D", "E"][1..] == ["E"];
    assert Spaced(["D", "E"]) == "D E" && Spaced(["C"]) == "C";
  }

  lemma BodyExample()
    ensures Canonical(" C \r\nD \t E\r\n\r\n\r\n", Relaxed) == " C\r\nD E\r\n"
    ensures Canonical(" C \r\nD \t E\r\n\r\n\r\n", Simple) == " C \r\nD \t E\r\n"
  {
    hide Lines, Reshape, Canonical;
    ExampleLines();
    var text, lines := " C \r\nD \t E\r\n\r\n\r\n", [" C ", "D \t E", "", "", ""];
    ReshapedExample(lines);
    CanonicalOf(text, Relaxed, " C", "D E");
    CanonicalOf(text, Simple, " C ", "D \t E");
    assert " C" + (CRLF + "D E") + CRLF == " C\r\nD E\r\n";
    assert " C " + (CRLF + "D \t E") + CRLF == " C \r\nD \t E\r\n";
  }

  lemma ReshapedExample(lines: seq<string>)
    requires lines == [" C ", "D \t E", "", "", ""]
    ensures Reshape(lines, Relaxed) == [" C", "D E", "", "", ""]
    ensures Reshape(lines, Simple) == lines
  {
    hide Reduced;
    ExampleReduced();
    NothingReduces();
  }

  lemma CanonicalOf(text: string, mode: Mode, a: string, b: string)
    requires Reshape(Lines(text), mode) == [a, b, "", "", ""] && b != ""
    ensures Canonical(text, mode) == a + (CRLF + b) + CRLF
  {
    hide Lines, Reshape;
    KeptExample(a, b);
  }

  lemma KeptExample(a: string, b: string)
    requires b != ""
    ensures Kept([a, b, "", "", ""]) == [a, b] && Join([a, b]) == a + (CRLF + b)
  {
    var l := [a, b, "", "", ""];
    assert l[..4] == [a, b, "", ""] && l[..4][..3] == [a, b, ""] && l[..4][..3][..2] == [a, b];
    assert Kept([a, b, ""]) == [a, b] && Kept([a, b, "", ""]) == [a, b];
    assert [a, b][1..] == [b];
  }
}
