/** White space, letter case and hexadecimal text, in ASCII. */
module Texts {

  predicate Blank(c: char) {
    c in {' ', '\t', '\n', '\r', 11 as char, 12 as char}
  }

  function TrimStart(s: string): string {
    if s != "" && Blank(s[0]) then TrimStart(s[1..]) else s
  }

  function TrimEnd(s: string): string {
    if s != "" && Blank(s[|s| - 1]) then TrimEnd(s[..|s| - 1]) else s
  }

  function LowerChar(c: char): char {
    if 'A' <= c <= 'Z' then (c as int + 32) as char else c
  }

  function Lower(s: string): string {
    seq(|s|, i requires 0 <= i < |s| => LowerChar(s[i]))
  }

  function Normal(s: string): string {
    Lower(TrimEnd(TrimStart(s)))
  }

  // ----- what these come to -----

  predicate BlankCode(c: int) {
    c == 0x20 || 9 <= c <= 13
  }

  predicate Blanks(s: string) {
    forall i :: 0 <= i < |s| ==> BlankCode(s[i] as int)
  }

  predicate Bare(s: string) {
    s != "" ==> !BlankCode(s[0] as int) && !BlankCode(s[|s| - 1] as int)
  }

  lemma BlankExactly(c: char)
    ensures Blank(c) <==> BlankCode(c as int)
  {
  }

  lemma {:induction false} TrimStartOf(a: string, t: string)
    requires Blanks(a) && (t != "" ==> !BlankCode(t[0] as int))
    ensures TrimStart(a + t) == t
  {
    if a == "" {
      assert a + t == t;
    } else {
      assert (a + t)[1..] == a[1..] + t;
      TrimStartOf(a[1..], t);
    }
  }

  lemma {:induction false} TrimEndOf(t: string, b: string)
    requires Blanks(b) && (t != "" ==> !BlankCode(t[|t| - 1] as int))
    ensures TrimEnd(t + b) == t
    decreases |b|
  {
    if b == "" {
      assert t + b == t;
    } else {
      assert (t + b)[..|t + b| - 1] == t + b[..|b| - 1];
      TrimEndOf(t, b[..|b| - 1]);
    }
  }

  lemma {:induction false} TrimStartIs(s: string) returns (a: string)
    ensures Blanks(a) && s == a + TrimStart(s)
    ensures TrimStart(s) != "" ==> !BlankCode(TrimStart(s)[0] as int)
  {
    if s != "" && Blank(s[0]) {
      var rest := TrimStartIs(s[1..]);
      a := [s[0]] + rest;
    } else {
      a := "";
    }
  }

  lemma {:induction false} TrimEndIs(s: string) returns (b: string)
    ensures Blanks(b) && s == TrimEnd(s) + b
    ensures TrimEnd(s) != "" ==> !BlankCode(TrimEnd(s)[|TrimEnd(s)| - 1] as int) && TrimEnd(s)[0] == s[0]
    decreases |s|
  {
    if s != "" && Blank(s[|s| - 1]) {
      var rest := TrimEndIs(s[..|s| - 1]);
      b := rest + [s[|s| - 1]];
    } else {
      b := "";
    }
  }

  /** Text stands trimmed in another: only white space is around it there, and none at its own ends. */
  ghost predicate Trimmed(s: string, t: string) {
    Bare(t) && exists a, b :: Blanks(a) && Blanks(b) && s == a + t + b
  }

  lemma TrimExactly(s: string, t: string)
    ensures TrimEnd(TrimStart(s)) == t <==> Trimmed(s, t)
  {
    var a := TrimStartIs(s);
    var b := TrimEndIs(TrimStart(s));
    if TrimEnd(TrimStart(s)) == t {
      assert s == a + t + b;
      assert Bare(t);
    }
    if Trimmed(s, t) {
      var x, y :| Blanks(x) && Blanks(y) && s == x + t + y;
      TrimOf(x, t, y);
    }
  }

  lemma TrimOf(x: string, t: string, y: string)
    requires Blanks(x) && Blanks(y) && Bare(t)
    ensures TrimEnd(TrimStart(x + t + y)) == t
  {
    if t == "" {
      assert x + t + y == (x + y) + "";
      TrimStartOf(x + y, "");
    } else {
      assert x + t + y == x + (t + y);
      TrimStartOf(x, t + y);
      TrimEndOf(t, y);
    }
  }

  /** Letters in lower case, and every other character as it is. */
  predicate Lowered(s: string, t: string) {
    && |t| == |s|
    && forall i :: 0 <= i < |s| ==> t[i] as int == if 65 <= s[i] as int <= 90 then s[i] as int + 32 else s[i] as int
  }

  lemma LowerExactly(s: string, t: string)
    ensures Lower(s) == t <==> Lowered(s, t)
  {
  }

  /** A normal spelling is trimmed and in lower case. */
  lemma NormalExactly(s: string, t: string)
    ensures Normal(s) == t <==> exists m :: Trimmed(s, m) && Lowered(m, t)
  {
    var m := TrimEnd(TrimStart(s));
    TrimExactly(s, m);
    LowerExactly(m, t);
    forall n | Trimmed(s, n) ensures n == m {
      TrimExactly(s, n);
    }
  }

  // ----- hexadecimal text -----

  const HEX := "0123456789ABCDEF"

  predicate HexDigit(c: char) {
    '0' <= c <= '9' || 'a' <= c <= 'f' || 'A' <= c <= 'F'
  }

  predicate Infix(needle: string, s: string) {
    needle <= s || (s != "" && Infix(needle, s[1..]))
  }

  lemma {:induction false} InfixIs(needle: string, s: string)
    ensures Infix(needle, s) <==> exists a, c :: s == a + needle + c
  {
    if needle <= s {
      assert s == [] + needle + s[|needle|..];
    } else if s != "" {
      InfixIs(needle, s[1..]);
      if Infix(needle, s[1..]) {
        var a, c :| s[1..] == a + needle + c;
        ConsInfix(s, a, needle, c);
      }
      if a, c :| s == a + needle + c {
        RestInfix(s, a, needle, c);
      }
    }
  }

  lemma ConsInfix(s: string, a: string, needle: string, c: string)
    requires s != "" && s[1..] == a + needle + c
    ensures s == ([s[0]] + a) + needle + c
  {
    assert s == [s[0]] + s[1..];
  }

  lemma RestInfix(s: string, a: string, needle: string, c: string)
    requires s == a + needle + c && !(needle <= s)
    ensures a != "" && s[1..] == a[1..] + needle + c
  {
    assert a == "" ==> s == needle + c;
  }

  /** Text of so many lower-case hexadecimal digits. */
  predicate HexText(s: string, n: nat) {
    |s| == n && forall i :: 0 <= i < n ==> 'a' <= s[i] <= 'f' || '0' <= s[i] <= '9'
  }

  lemma HexExactly(c: char)
    ensures HexDigit(c) <==> 0x30 <= c as int <= 0x39 || 0x41 <= c as int <= 0x46 || 0x61 <= c as int <= 0x66
    ensures forall i :: 0 <= i < 16 ==> HEX[i] as int == if i < 10 then 0x30 + i else 0x37 + i
  {
  }

  lemma HexTextExactly(s: string, n: nat)
    ensures HexText(s, n) <==>
            |s| == n && forall i :: 0 <= i < |s| ==> 0x30 <= s[i] as int <= 0x39 || 0x61 <= s[i] as int <= 0x66
  {
  }

  // ----- text split at a mark -----

  function Split(s: string, mark: char): (r: seq<string>)
    ensures r != []
  {
    if s == "" then [""]
    else
      var rest := Split(s[1..], mark);
      if s[0] == mark then [""] + rest else [[s[0]] + rest[0]] + rest[1..]
  }

  function Joined(parts: seq<string>, mark: char): string
    requires parts != []
  {
    if |parts| == 1 then parts[0] else parts[0] + [mark] + Joined(parts[1..], mark)
  }

  predicate Unmarked(parts: seq<string>, mark: char) {
    forall k :: 0 <= k < |parts| ==> mark !in parts[k]
  }

  /** What a text is split into holds no mark and joins to it again. */
  lemma {:induction false} SplitJoins(s: string, mark: char)
    ensures Joined(Split(s, mark), mark) == s && Unmarked(Split(s, mark), mark)
  {
    if s != "" {
      var r, rest := Split(s, mark), Split(s[1..], mark);
      SplitJoins(s[1..], mark);
      if s[0] == mark {
        assert r[1..] == rest;
      } else if |rest| > 1 {
        assert r[1..] == rest[1..];
        assert Joined(r, mark) == ([s[0]] + rest[0]) + [mark] + Joined(rest[1..], mark);
      }
      assert s == [s[0]] + s[1..];
    }
  }

  /** Parts without the mark are what their joined text is split into. */
  lemma {:induction false} JoinedSplits(parts: seq<string>, mark: char)
    requires parts != [] && Unmarked(parts, mark)
    ensures Split(Joined(parts, mark), mark) == parts
    decreases |parts|, |parts[0]|
  {
    var s, first := Joined(parts, mark), parts[0];
    if first == "" {
      if |parts| > 1 {
        assert s[1..] == Joined(parts[1..], mark);
        JoinedSplits(parts[1..], mark);
      }
    } else {
      var shorter := [first[1..]] + parts[1..];
      assert shorter[1..] == parts[1..];
      assert first == [first[0]] + first[1..];
      assert s == [first[0]] + Joined(shorter, mark);
      assert s[1..] == Joined(shorter, mark);
      forall k | 0 <= k < |shorter| ensures mark !in shorter[k] {
        assert mark !in parts[k];
      }
      JoinedSplits(shorter, mark);
    }
  }
}
