/** Qualification of lsof warnings about unavailable SMB mounts: nothing else on standard error is tolerated. */
module MountWarnings {
  import opened Results
  import Texts

  /** One row of the native mount table. */
  datatype Mount = Mount(path: string, fstype: string, device: nat, minor: int)

  /** What the warnings are held against. Path normality and overlap with the target are path arithmetic, taken as given. */
  datatype Scope = Scope(before: seq<Mount>, after: seq<Mount>, devices: set<nat>,
                         normal: string -> bool, overlaps: string -> bool)

  datatype Warning = Warning(mount: string, device: string)

  datatype Qualified = Qualified(mount: string, device: nat)

  /** The fixed words around the mount and the device of a warning. */
  datatype Wording = Wording(head: string, middle: string, tail: string)

  const SMB := Wording("lsof: WARNING: can't stat() smbfs file system ",
                       "\n" + "      Output information may be incomplete.\n      assuming \"dev=",
                       "\"" + " from mount table\n")

  /** The words end a mount with a newline and a device with a quote. */
  predicate Delimits(f: Wording) {
    f.head != "" && f.middle != "" && f.middle[0] == '\n' && f.tail != "" && f.tail[0] == '"'
  }

  function HexDigitValue(c: char): nat
    requires Texts.HexDigit(c)
  {
    if '0' <= c <= '9' then c as int - '0' as int
    else if 'a' <= c <= 'f' then c as int - 'a' as int + 10
    else c as int - 'A' as int + 10
  }

  function HexValue(s: string): nat
    requires forall i :: 0 <= i < |s| ==> Texts.HexDigit(s[i])
  {
    if s == "" then 0 else 16 * HexValue(s[..|s| - 1]) + HexDigitValue(s[|s| - 1])
  }

  predicate WellWorded(w: Warning) {
    && |w.mount| >= 2 && w.mount[0] == '/' && (forall i :: 0 <= i < |w.mount| ==> w.mount[i] != '\n')
    && w.device != "" && (forall i :: 0 <= i < |w.device| ==> Texts.HexDigit(w.device[i]))
  }

  function PrintWarning(f: Wording, w: Warning): string {
    f.head + (w.mount + (f.middle + (w.device + f.tail)))
  }

  function PrintWarnings(f: Wording, ws: seq<Warning>): string {
    if ws == [] then "" else PrintWarning(f, ws[0]) + PrintWarnings(f, ws[1..])
  }

  // ----- matching -----

  /** How many leading characters satisfy a predicate. */
  function Span(p: char -> bool, s: string): (n: nat)
    ensures n <= |s| && (forall i :: 0 <= i < n ==> p(s[i])) && (n < |s| ==> !p(s[n]))
  {
    if s == "" || !p(s[0]) then 0 else 1 + Span(p, s[1..])
  }

  const IN_LINE: char -> bool := (c: char) => c != '\n'
  const IS_HEX: char -> bool := (c: char) => Texts.HexDigit(c)

  function After(prefix: string, s: string): Option<string> {
    if prefix <= s then Some(s[|prefix|..]) else None
  }

  /** The warning at the start of a text, and what follows it. */
  function MatchWarning(f: Wording, text: string): Option<(Warning, string)> {
    match After(f.head, text)
    case None => None
    case Some(a) =>
      var n := Span(IN_LINE, a);
      if n < 2 || a[0] != '/' then None
      else
        match After(f.middle, a[n..])
        case None => None
        case Some(b) =>
          var k := Span(IS_HEX, b);
          if k == 0 then None
          else
            match After(f.tail, b[k..])
            case None => None
            case Some(rest) => Some((Warning(a[..n], b[..k]), rest))
  }

  lemma {:induction false} SpanStops(p: char -> bool, a: string, b: string)
    requires (forall i :: 0 <= i < |a| ==> p(a[i])) && (b == "" || !p(b[0]))
    ensures Span(p, a + b) == |a|
  {
    if a != "" {
      assert (a + b)[1..] == a[1..] + b;
      SpanStops(p, a[1..], b);
    }
  }

  lemma AfterOwn(prefix: string, s: string)
    ensures After(prefix, prefix + s) == Some(s)
  {
  }

  /** A printed warning is matched, whatever follows. */
  lemma MatchesPrinted(f: Wording, w: Warning, rest: string)
    requires Delimits(f) && WellWorded(w)
    ensures MatchWarning(f, PrintWarning(f, w) + rest) == Some((w, rest))
  {
    hide After, Span, Texts.HexDigit;
    var c := f.tail + rest;
    var b := w.device + c;
    var m := f.middle + b;
    var a := w.mount + m;
    assert PrintWarning(f, w) + rest == f.head + a;
    assert m[0] == '\n' && c[0] == '"';
    assert !Texts.HexDigit('"') by {
      QuoteIsNoDigit();
    }
    AfterOwn(f.head, a);
    SpanStops(IN_LINE, w.mount, m);
    AfterOwn(f.middle, b);
    SpanStops(IS_HEX, w.device, c);
    AfterOwn(f.tail, rest);
    assert a[|w.mount|..] == m && a[..|w.mount|] == w.mount;
    assert b[|w.device|..] == c && b[..|w.device|] == w.device;
  }

  lemma QuoteIsNoDigit()
    ensures !Texts.HexDigit('"')
  {
  }

  lemma AfterSplits(prefix: string, s: string)
    requires After(prefix, s).Some?
    ensures s == prefix + After(prefix, s).value
  {
  }

  /** What is matched is a printed warning. */
  lemma MatchedIsPrinted(f: Wording, text: string)
    requires Delimits(f) && MatchWarning(f, text).Some?
    ensures var (w, rest) := MatchWarning(f, text).value;
            WellWorded(w) && text == PrintWarning(f, w) + rest && |rest| < |text|
  {
    hide After;
    var (w, rest) := MatchWarning(f, text).value;
    var a := After(f.head, text).value;
    AfterSplits(f.head, text);
    var n := Span(IN_LINE, a);
    var b := After(f.middle, a[n..]).value;
    AfterSplits(f.middle, a[n..]);
    var k := Span(IS_HEX, b);
    AfterSplits(f.tail, b[k..]);
    assert a == a[..n] + a[n..] && b == b[..k] + b[k..];
    assert f.head + (w.mount + (f.middle + (w.device + (f.tail + rest))))
        == f.head + (w.mount + (f.middle + (w.device + f.tail))) + rest;
  }

  // ----- qualification -----

  function RowsOf(rows: seq<Mount>, path: string): seq<Mount> {
    if rows == [] then [] else (if rows[0].path == path then [rows[0]] else []) + RowsOf(rows[1..], path)
  }

  /** The mount is one stable SMB row of the named device, away from the target, and so is every alias of that device. */
  predicate Independent(s: Scope, w: Warning)
    requires WellWorded(w)
  {
    var device := HexValue(w.device);
    var rows := RowsOf(s.before, w.mount);
    && s.normal(w.mount)
    && |rows| == 1 && rows[0].fstype == "smbfs" && rows[0].device == device
    && RowsOf(s.after, w.mount) == rows
    && device !in s.devices
    && !s.overlaps(w.mount)
    && forall r :: r in s.before + s.after && r.device == device ==> !s.overlaps(r.path)
  }

  function QualifyOf(w: Warning): Qualified
    requires WellWorded(w)
  {
    Qualified(w.mount, HexValue(w.device))
  }

  method QualifyWarnings(stderr: string, s: Scope) returns (r: Result<seq<Qualified>>)
    ensures r.Ok? ==> exists ws :: Explains(SMB, s, ws, stderr, r.value)
    ensures r.Err? ==> !exists ws, qs :: Explains(SMB, s, ws, stderr, qs)
  {
    assert Delimits(SMB);
    r := Qualify(SMB, stderr, s);
  }

  method Qualify(f: Wording, stderr: string, s: Scope) returns (r: Result<seq<Qualified>>)
    requires Delimits(f)
    ensures r.Ok? ==> exists ws :: Explains(f, s, ws, stderr, r.value)
    ensures r.Err? ==> !exists ws, qs :: Explains(f, s, ws, stderr, qs)
  {
    hide Independent, MatchWarning, Mounts, PrintWarning, PrintWarnings, WellWorded, Explains;
    var remaining := stderr;
    var qualified: seq<Qualified> := [];
    var seen: set<string> := {};
    ghost var ws: seq<Warning> := [];
    NothingExplained(f, s, stderr);
    while remaining != ""
      invariant stderr == PrintWarnings(f, ws) + remaining
      invariant Explains(f, s, ws, PrintWarnings(f, ws), qualified)
      invariant seen == Mounts(ws)
      decreases |remaining|
    {
      var m := MatchWarning(f, remaining);
      NoExplanation(f, s, ws, qualified, remaining);
      if m.None? {
        return Err("Unqualified lsof diagnostic");
      }
      MatchedIsPrinted(f, remaining);
      var w := m.value.0;
      if !Independent(s, w) || w.mount in seen {
        return Err("SMB warning scope is not independently qualified");
      }
      PrintSnoc(f, ws, w);
      assert PrintWarnings(f, ws) + (PrintWarning(f, w) + m.value.1) == PrintWarnings(f, ws + [w]) + m.value.1;
      ExplainsSnoc(f, s, ws, qualified, w);
      ws := ws + [w];
      seen := seen + {w.mount};
      qualified := qualified + [QualifyOf(w)];
      remaining := m.value.1;
    }
    assert stderr == PrintWarnings(f, ws);
    r := Ok(qualified);
  }

  function Mounts(ws: seq<Warning>): set<string> {
    set w | w in ws :: w.mount
  }

  /** text is exactly the warnings ws, each qualified on its own and with distinct mounts, and qs says so. */
  ghost predicate Explains(f: Wording, s: Scope, ws: seq<Warning>, text: string, qs: seq<Qualified>) {
    && text == PrintWarnings(f, ws) && |qs| == |ws|
    && (forall i :: 0 <= i < |ws| ==> WellWorded(ws[i]) && Independent(s, ws[i]) && qs[i] == QualifyOf(ws[i]))
    && (forall i, j :: 0 <= i < j < |ws| ==> ws[i].mount != ws[j].mount)
  }

  lemma NothingExplained(f: Wording, s: Scope, text: string)
    ensures Explains(f, s, [], PrintWarnings(f, []), []) && PrintWarnings(f, []) + text == text && Mounts([]) == {}
  {
  }

  lemma {:induction false} PrintSnoc(f: Wording, ws: seq<Warning>, w: Warning)
    ensures PrintWarnings(f, ws + [w]) == PrintWarnings(f, ws) + PrintWarning(f, w)
  {
    hide PrintWarning;
    if ws == [] {
      assert [w][1..] == [];
    } else {
      assert (ws + [w])[1..] == ws[1..] + [w];
      PrintSnoc(f, ws[1..], w);
    }
  }

  lemma ExplainsSnoc(f: Wording, s: Scope, ws: seq<Warning>, qs: seq<Qualified>, w: Warning)
    requires Explains(f, s, ws, PrintWarnings(f, ws), qs) && WellWorded(w) && Independent(s, w) && w.mount !in Mounts(ws)
    ensures Explains(f, s, ws + [w], PrintWarnings(f, ws + [w]), qs + [QualifyOf(w)])
    ensures Mounts(ws + [w]) == Mounts(ws) + {w.mount}
  {
    hide WellWorded, Independent, PrintWarnings;
    var more := ws + [w];
    forall x | x in ws ensures x.mount in Mounts(ws) && x in more {}
    assert w in more;
  }

  lemma PrintedIsNotEmpty(f: Wording, ws: seq<Warning>)
    requires Delimits(f)
    ensures PrintWarnings(f, ws) == "" <==> ws == []
  {
  }

  /** Matching leaves no choice: a text that starts with one list of warnings and is another list extends it. */
  lemma {:induction false} SamePrefix(f: Wording, ws: seq<Warning>, vs: seq<Warning>, rest: string)
    requires Delimits(f)
    requires forall i :: 0 <= i < |ws| ==> WellWorded(ws[i])
    requires forall i :: 0 <= i < |vs| ==> WellWorded(vs[i])
    requires PrintWarnings(f, vs) == PrintWarnings(f, ws) + rest
    ensures ws <= vs && rest == PrintWarnings(f, vs[|ws|..])
    decreases |ws|
  {
    hide WellWorded, PrintWarning, MatchWarning;
    if ws == [] {
      assert vs[0..] == vs;
    } else {
      var ws' := ws[1..];
      PrintedIsNotEmpty(f, ws);
      PrintedIsNotEmpty(f, vs);
      assert PrintWarnings(f, ws) + rest == PrintWarning(f, ws[0]) + (PrintWarnings(f, ws') + rest);
      MatchesPrinted(f, ws[0], PrintWarnings(f, ws') + rest);
      MatchesPrinted(f, vs[0], PrintWarnings(f, vs[1..]));
      SamePrefix(f, ws', vs[1..], rest);
      assert vs[1..][|ws'|..] == vs[|ws|..];
      assert ws == [ws[0]] + ws' && vs == [vs[0]] + vs[1..];
    }
  }

  /** A list that explains a text goes on, behind the warnings read so far, with the warning matched next, and that
      one is independent and of a new mount. */
  lemma Continues(f: Wording, s: Scope, ws: seq<Warning>, remaining: string, vs: seq<Warning>, qs: seq<Qualified>)
    requires Delimits(f) && (forall i :: 0 <= i < |ws| ==> WellWorded(ws[i])) && remaining != ""
    requires Explains(f, s, vs, PrintWarnings(f, ws) + remaining, qs)
    ensures MatchWarning(f, remaining).Some?
    ensures var w := MatchWarning(f, remaining).value.0;
            WellWorded(w) && Independent(s, w) && w.mount !in Mounts(ws)
  {
    hide WellWorded, Independent, PrintWarning, MatchWarning;
    SamePrefix(f, ws, vs, remaining);
    var tail := vs[|ws|..];
    PrintedIsNotEmpty(f, tail);
    var w := tail[0];
    assert w == vs[|ws|];
    MatchesPrinted(f, w, PrintWarnings(f, tail[1..]));
    forall x | x in ws ensures x.mount != w.mount {
      var i :| 0 <= i < |ws| && ws[i] == x;
      assert vs[i] == ws[i];
    }
  }

  /** When the text cannot be continued like that, no list explains it. */
  lemma NoExplanation(f: Wording, s: Scope, ws: seq<Warning>, read: seq<Qualified>, remaining: string)
    requires Delimits(f) && Explains(f, s, ws, PrintWarnings(f, ws), read) && remaining != ""
    ensures (exists vs, qs :: Explains(f, s, vs, PrintWarnings(f, ws) + remaining, qs)) ==>
              MatchWarning(f, remaining).Some?
              && WellWorded(MatchWarning(f, remaining).value.0)
              && Independent(s, MatchWarning(f, remaining).value.0)
              && MatchWarning(f, remaining).value.0.mount !in Mounts(ws)
  {
    hide WellWorded, Independent, MatchWarning, PrintWarnings;
    if vs, qs :| Explains(f, s, vs, PrintWarnings(f, ws) + remaining, qs) {
      Continues(f, s, ws, remaining, vs, qs);
    }
  }
}
