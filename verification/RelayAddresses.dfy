/** Relay addresses, which carry a token, and reading the token back from a recipient. */
module RelayAddresses {
  import opened Results
  import Texts

  const MAILBOX_LIMIT := 320
  const HOST_LIMIT := 253
  const LABEL_LIMIT := 63
  const TOKEN_LENGTH := 62
  const LEGACY_TOKEN_LENGTH := 64

  // ----- mailboxes -----

  predicate AlphaNumeric(c: char) {
    'a' <= c <= 'z' || '0' <= c <= '9'
  }

  predicate Label(l: string) {
    && 1 <= |l| <= LABEL_LIMIT && AlphaNumeric(l[0]) && AlphaNumeric(l[|l| - 1])
    && forall i :: 0 <= i < |l| ==> AlphaNumeric(l[i]) || l[i] == '-'
  }

  predicate Host(h: string) {
    1 <= |h| <= HOST_LIMIT && forall l :: l in Texts.Split(h, '.') ==> Label(l)
  }

  function LastAt(s: string): (r: int)
    ensures -1 <= r < |s| && (r >= 0 ==> s[r] == '@')
    ensures forall i :: r < i < |s| ==> s[i] != '@'
  {
    if s == "" then -1 else if s[|s| - 1] == '@' then |s| - 1 else LastAt(s[..|s| - 1])
  }

  predicate Unprintable(c: char) {
    Texts.Blank(c) || c as int < 0x20 || c as int == 0x7F
  }

  predicate Mailbox(m: string) {
    var at := LastAt(m);
    && 0 < at < |m| - 1 && |m| <= MAILBOX_LIMIT && Host(m[at + 1..])
    && forall i :: 0 <= i < |m| ==> !Unprintable(m[i])
  }

  /** The mailbox in its one spelling, or nothing when it is not one. */
  function NormalizeMailbox(value: string): string {
    var mailbox := Texts.Normal(value);
    if Mailbox(mailbox) then mailbox else ""
  }

  // ----- relay addresses -----

  predicate Token(s: string) {
    Texts.HexText(s, TOKEN_LENGTH) || Texts.HexText(s, LEGACY_TOKEN_LENGTH)
  }

  function RelayAddress(token: string, domain: string): Result<string> {
    if Texts.HexText(token, TOKEN_LENGTH) then Ok("r+" + token + "@" + domain) else Err("relay token is invalid")
  }

  function RelayTokenFromRecipient(recipient: string, domain: string): Option<string> {
    var mailbox, suffix := NormalizeMailbox(recipient), "@" + domain;
    if |mailbox| < |suffix| || mailbox[|mailbox| - |suffix|..] != suffix then None
    else
      var local := mailbox[..|mailbox| - |suffix|];
      if |local| < 2 || local[..2] != "r+" then None
      else if Token(local[2..]) then Some(local[2..]) else None
  }

  // ----- normal spellings -----

  lemma {:induction false} LowerOnce(s: string)
    ensures Texts.Lower(Texts.Lower(s)) == Texts.Lower(s)
    ensures forall i :: 0 <= i < |s| ==> (Texts.Blank(Texts.Lower(s)[i]) <==> Texts.Blank(s[i]))
  {
  }

  lemma {:induction false} TrimmedEnds(s: string)
    ensures var t := Texts.TrimStart(s); t == "" || !Texts.Blank(t[0])
    ensures var t := Texts.TrimEnd(s); t == "" || (!Texts.Blank(t[|t| - 1]) && t[0] == s[0])
    ensures |Texts.TrimEnd(s)| <= |s|
    decreases |s|
  {
    if s != "" {
      TrimmedEnds(s[1..]);
      TrimmedEnds(s[..|s| - 1]);
    }
  }

  /** Text that neither starts nor ends with whitespace, all in lower case. */
  predicate Plain(s: string) {
    (s != "" ==> !Texts.Blank(s[0]) && !Texts.Blank(s[|s| - 1])) && Texts.Lower(s) == s
  }

  lemma NormalPlain(s: string)
    ensures Plain(Texts.Normal(s))
    ensures Plain(s) ==> Texts.Normal(s) == s
  {
    hide Texts.Lower, Texts.Blank;
    var t := Texts.TrimStart(s);
    TrimmedEnds(s);
    TrimmedEnds(t);
    LowerOnce(Texts.TrimEnd(t));
    LowerLength(Texts.TrimEnd(t));
    assert Plain(s) ==> Texts.TrimStart(s) == s && Texts.TrimEnd(s) == s;
  }

  lemma LowerLength(s: string)
    ensures |Texts.Lower(s)| == |s|
  {
  }

  /** Normalising a mailbox again changes nothing. */
  lemma NormalizedOnce(value: string)
    ensures NormalizeMailbox(NormalizeMailbox(value)) == NormalizeMailbox(value)
  {
    hide Mailbox, Texts.Normal;
    NormalPlain(value);
    NormalPlain(Texts.Normal(value));
    EmptyNormal();
  }

  lemma EmptyNormal()
    ensures Texts.Normal("") == "" && !Mailbox("")
  {
  }

  // ----- the round trip -----

  predicate HostChar(c: char) {
    AlphaNumeric(c) || c == '-'
  }

  predicate LabelChars(l: string) {
    forall i :: 0 <= i < |l| ==> HostChar(l[i])
  }

  lemma {:induction false} LabelsChars(h: string)
    requires forall i :: 0 <= i < |Texts.Split(h, '.')| ==> LabelChars(Texts.Split(h, '.')[i])
    ensures forall i :: 0 <= i < |h| ==> HostChar(h[i]) || h[i] == '.'
  {
    hide HostChar;
    if h != "" {
      var all, rest := Texts.Split(h, '.'), Texts.Split(h[1..], '.');
      if h[0] == '.' {
        assert forall i :: 0 <= i < |rest| ==> all[i + 1] == rest[i];
      } else {
        assert all[0][0] == h[0];
        assert forall i :: 0 <= i < |rest[0]| ==> all[0][i + 1] == rest[0][i];
        assert forall i :: 1 <= i < |rest| ==> all[i] == rest[i];
      }
      LabelsChars(h[1..]);
    }
  }

  lemma HostChars(h: string)
    requires Host(h)
    ensures forall i :: 0 <= i < |h| ==> HostChar(h[i]) || h[i] == '.'
  {
    hide Texts.Split;
    forall i | 0 <= i < |Texts.Split(h, '.')| ensures LabelChars(Texts.Split(h, '.')[i]) {
      assert Label(Texts.Split(h, '.')[i]);
    }
    LabelsChars(h);
  }

  lemma {:induction false} OneLabel(h: string)
    requires |Texts.Split(h, '.')| == 1
    ensures Texts.Split(h, '.')[0] == h
  {
    if h != "" {
      OneLabel(h[1..]);
      assert h == [h[0]] + h[1..];
    }
  }

  lemma {:induction false} LastLabel(h: string)
    requires var last := Texts.Split(h, '.')[|Texts.Split(h, '.')| - 1]; last != ""
    ensures var last := Texts.Split(h, '.')[|Texts.Split(h, '.')| - 1]; h != "" && h[|h| - 1] == last[|last| - 1]
  {
    if |Texts.Split(h, '.')| == 1 {
      OneLabel(h);
    } else {
      var rest := Texts.Split(h[1..], '.');
      assert Texts.Split(h, '.')[|Texts.Split(h, '.')| - 1] == rest[|rest| - 1];
      LastLabel(h[1..]);
    }
  }

  lemma HostEnds(h: string)
    requires Host(h)
    ensures AlphaNumeric(h[|h| - 1])
  {
    assert Label(Texts.Split(h, '.')[|Texts.Split(h, '.')| - 1]);
    LastLabel(h);
  }

  predicate Quiet(c: char) {
    c != '@' && !Unprintable(c) && Texts.LowerChar(c) == c
  }

  lemma QuietChars()
    ensures forall c :: AlphaNumeric(c) || c == '-' || c == '.' || c == '+' ==> Quiet(c)
  {
  }

  lemma {:induction false} LastAtIs(local: string, domain: string)
    requires forall i :: 0 <= i < |domain| ==> domain[i] != '@'
    ensures LastAt(local + "@" + domain) == |local|
  {
    var s := local + "@" + domain;
    assert s[|local|] == '@';
    assert forall i :: |local| < i < |s| ==> s[i] == domain[i - |local| - 1];
  }

  /** A relay address is a mailbox in its normal spelling. */
  lemma AddressIsNormal(token: string, domain: string)
    requires Texts.HexText(token, TOKEN_LENGTH) && Host(domain)
    ensures NormalizeMailbox("r+" + token + "@" + domain) == "r+" + token + "@" + domain
  {
    hide Texts.Split, Label, LastAt, Texts.TrimStart, Texts.TrimEnd, Texts.Normal;
    var local := "r+" + token;
    var a := local + "@" + domain;
    HostChars(domain);
    HostEnds(domain);
    QuietChars();
    LastAtIs(local, domain);
    forall i | 0 <= i < |a| ensures !Unprintable(a[i]) && Texts.LowerChar(a[i]) == a[i] {
      if i < |local| {
        assert i >= 2 ==> a[i] == token[i - 2];
      } else if i > |local| {
        assert a[i] == domain[i - |local| - 1];
      }
    }
    assert a[|local| + 1..] == domain;
    assert Texts.Lower(a) == a;
    NormalPlain(a);
  }

  lemma Halves(local: string, suffix: string)
    ensures var m := local + suffix; m[|m| - |suffix|..] == suffix && m[..|m| - |suffix|] == local
  {
  }

  /** A recipient carries a token exactly when its normal spelling is the relay address of that token. */
  lemma TokenExactly(recipient: string, domain: string, token: string)
    ensures RelayTokenFromRecipient(recipient, domain) == Some(token) <==>
            Token(token) && NormalizeMailbox(recipient) == "r+" + token + "@" + domain
  {
    hide NormalizeMailbox, Token;
    var mailbox, suffix := NormalizeMailbox(recipient), "@" + domain;
    var local := "r+" + token;
    Halves(local, suffix);
    assert local + suffix == "r+" + token + "@" + domain;
    assert local[..2] == "r+" && local[2..] == token;
    if RelayTokenFromRecipient(recipient, domain) == Some(token) {
      var front := mailbox[..|mailbox| - |suffix|];
      assert mailbox == front + suffix;
      assert front == front[..2] + front[2..];
    }
  }

  /** However a relay address comes back, in whatever case and with whatever space around it, it gives back its token. */
  lemma AddressReadsBack(token: string, domain: string, recipient: string)
    requires Texts.HexText(token, TOKEN_LENGTH) && Host(domain)
    requires RelayAddress(token, domain).Ok? && Texts.Normal(recipient) == RelayAddress(token, domain).value
    ensures RelayTokenFromRecipient(recipient, domain) == Some(token)
  {
    hide Host, Mailbox, Texts.Normal;
    AddressIsNormal(token, domain);
    NormalPlain(recipient);
    NormalPlain("r+" + token + "@" + domain);
    TokenExactly(recipient, domain, token);
  }

  // ----- mailboxes, said once more -----

  predicate LabelText(l: string) {
    && 1 <= |l| <= 63 && l[0] != '-' && l[|l| - 1] != '-'
    && forall i :: 0 <= i < |l| ==>
         l[i] as int == 0x2D || 0x30 <= l[i] as int <= 0x39 || 0x61 <= l[i] as int <= 0x7A
  }

  ghost predicate AddressOf(m: string, local: string, labels: seq<string>) {
    && local != "" && labels != [] && (forall k :: 0 <= k < |labels| ==> LabelText(labels[k]))
    && |Texts.Joined(labels, '.')| <= 253 && m == local + "@" + Texts.Joined(labels, '.')
  }

  lemma LabelIs(l: string)
    ensures Label(l) <==> LabelText(l)
    ensures LabelText(l) ==> '.' !in l && '@' !in l
  {
  }

  lemma {:induction false} JoinedPlain(labels: seq<string>)
    requires labels != [] && forall k :: 0 <= k < |labels| ==> LabelText(labels[k])
    ensures Texts.Joined(labels, '.') != "" && '@' !in Texts.Joined(labels, '.')
  {
    LabelIs(labels[0]);
    if |labels| > 1 {
      JoinedPlain(labels[1..]);
    }
  }

  lemma HostExactly(h: string)
    ensures Host(h) <==> |h| <= 253 && exists labels ::
              labels != [] && (forall k :: 0 <= k < |labels| ==> LabelText(labels[k])) && h == Texts.Joined(labels, '.')
  {
    hide Texts.Joined, Texts.Split, Label, LabelText;
    var split := Texts.Split(h, '.');
    Texts.SplitJoins(h, '.');
    forall l ensures Label(l) <==> LabelText(l) {
      LabelIs(l);
    }
    if Host(h) {
      assert forall k :: 0 <= k < |split| ==> split[k] in split;
    }
    forall labels | labels != [] && (forall k :: 0 <= k < |labels| ==> LabelText(labels[k])) && h == Texts.Joined(labels, '.')
      ensures split == labels && h != ""
    {
      forall k | 0 <= k < |labels| ensures '.' !in labels[k] {
        LabelIs(labels[k]);
      }
      Texts.JoinedSplits(labels, '.');
      JoinedPlain(labels);
    }
  }

  /** A mailbox is printable text and an at sign in front of labels joined by dots. */
  lemma MailboxExactly(m: string)
    ensures Mailbox(m) <==>
      && |m| <= 320 && (forall i :: 0 <= i < |m| ==> 0x20 < m[i] as int && m[i] as int != 0x7F)
      && exists local, labels :: AddressOf(m, local, labels)
  {
    hide Host, Texts.Joined, Texts.Split, LabelText, LastAt;
    var at := LastAt(m);
    if 0 < at < |m| - 1 {
      HostExactly(m[at + 1..]);
      if Host(m[at + 1..]) {
        var labels :| labels != [] && (forall k :: 0 <= k < |labels| ==> LabelText(labels[k]))
                      && m[at + 1..] == Texts.Joined(labels, '.');
        assert m == m[..at] + "@" + m[at + 1..];
        assert AddressOf(m, m[..at], labels);
      }
    }
    forall local, labels | AddressOf(m, local, labels) ensures 0 < at < |m| - 1 && Host(m[at + 1..]) {
      JoinedPlain(labels);
      LastAtIs(local, Texts.Joined(labels, '.'));
      assert m[|local| + 1..] == Texts.Joined(labels, '.');
      HostExactly(m[at + 1..]);
    }
  }
}
