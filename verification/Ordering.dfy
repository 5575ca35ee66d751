/** Texts as their code units, and sorting records by a text of theirs. */
module Ordering {

  type Text = seq<int>

  function Codes(s: string): Text {
    seq(|s|, i requires 0 <= i < |s| => s[i] as int)
  }

  lemma CodesInjective(s: string, t: string)
    requires Codes(s) == Codes(t)
    ensures s == t
  {
    assert |s| == |Codes(s)| == |Codes(t)| == |t|;
    forall i | 0 <= i < |s| ensures s[i] == t[i] {
      assert Codes(s)[i] == Codes(t)[i];
    }
  }

  /** Strict order by the first code unit in which two texts differ; a proper prefix comes first. */
  predicate Before(a: Text, b: Text) {
    b != [] && (a == [] || a[0] < b[0] || (a[0] == b[0] && Before(a[1..], b[1..])))
  }

  /** One text is a proper start of the other, or the first code unit in which they differ is less. */
  ghost predicate Precedes(a: Text, b: Text) {
    exists k :: DiffersAt(a, b, k)
  }

  ghost predicate DiffersAt(a: Text, b: Text, k: nat) {
    && k <= |a| && k < |b| && a[..k] == b[..k]
    && (k == |a| || a[k] < b[k])
  }

  lemma AgreesFirst(a: Text, b: Text, k: nat)
    requires DiffersAt(a, b, k)
    ensures k > 0 ==> a[0] == b[0]
  {
    assert k > 0 ==> a[..k][0] == b[..k][0];
  }

  lemma {:induction false} BeforeExactly(a: Text, b: Text)
    ensures Before(a, b) <==> Precedes(a, b)
  {
    if b == [] || a == [] || a[0] != b[0] {
      if Before(a, b) {
        assert a[..0] == b[..0];
        assert DiffersAt(a, b, 0);
      } else if k: nat :| DiffersAt(a, b, k) {
        AgreesFirst(a, b, k);
      }
    } else {
      var c, d := a[1..], b[1..];
      BeforeExactly(c, d);
      if k: nat :| DiffersAt(c, d, k) {
        assert a[..k + 1] == [a[0]] + c[..k] && b[..k + 1] == [b[0]] + d[..k];
        assert DiffersAt(a, b, k + 1);
      }
      if k: nat :| DiffersAt(a, b, k) {
        assert c[..k - 1] == a[..k][1..] && d[..k - 1] == b[..k][1..];
        assert DiffersAt(c, d, k - 1);
      }
    }
  }

  lemma {:induction false} BeforeTotal(a: Text, b: Text)
    ensures Before(a, b) || Before(b, a) || a == b
    ensures Before(a, b) ==> !Before(b, a) && a != b
  {
    if a != [] && b != [] {
      BeforeTotal(a[1..], b[1..]);
      if a[0] == b[0] && a[1..] == b[1..] {
        assert a == [a[0]] + a[1..] && b == [b[0]] + b[1..];
      }
    }
  }

  lemma {:induction false} BeforeChains(a: Text, b: Text, c: Text)
    requires Before(a, b) && Before(b, c)
    ensures Before(a, c)
  {
    if a != [] && a[0] == b[0] == c[0] {
      BeforeChains(a[1..], b[1..], c[1..]);
    }
  }

  function Insert<T>(x: T, s: seq<T>, key: T -> Text): seq<T> {
    if s == [] || !Before(key(s[0]), key(x)) then [x] + s else [s[0]] + Insert(x, s[1..], key)
  }

  function Sort<T>(s: seq<T>, key: T -> Text): seq<T> {
    if s == [] then [] else Insert(s[0], Sort(s[1..], key), key)
  }

  ghost predicate Ascending<T>(s: seq<T>, key: T -> Text) {
    forall i, j :: 0 <= i < j < |s| ==> !Before(key(s[j]), key(s[i]))
  }

  ghost predicate Keyed<T>(s: seq<T>, key: T -> Text) {
    forall i, j :: 0 <= i < j < |s| ==> key(s[i]) != key(s[j])
  }

  lemma {:induction false} InsertKeeps<T>(x: T, s: seq<T>, key: T -> Text)
    ensures multiset(Insert(x, s, key)) == multiset{x} + multiset(s)
    ensures |Insert(x, s, key)| == |s| + 1
  {
    if s != [] && Before(key(s[0]), key(x)) {
      InsertKeeps(x, s[1..], key);
      assert s == [s[0]] + s[1..];
    }
  }

  lemma {:induction false} SortKeeps<T>(s: seq<T>, key: T -> Text)
    ensures multiset(Sort(s, key)) == multiset(s)
    ensures |Sort(s, key)| == |s|
  {
    if s != [] {
      SortKeeps(s[1..], key);
      InsertKeeps(s[0], Sort(s[1..], key), key);
      assert s == [s[0]] + s[1..];
    }
  }

  lemma NotBeforeChains(a: Text, b: Text, c: Text)
    requires !Before(b, a) && !Before(c, b)
    ensures !Before(c, a)
  {
    hide Before;
    BeforeTotal(a, b);
    BeforeTotal(b, c);
    BeforeTotal(a, c);
    if a != b && b != c {
      BeforeChains(a, b, c);
    }
  }

  lemma ConsAscending<T>(x: T, s: seq<T>, key: T -> Text)
    requires Ascending(s, key) && (s == [] || !Before(key(s[0]), key(x)))
    ensures Ascending([x] + s, key)
  {
    hide Before;
    forall j | 0 <= j < |s| ensures !Before(key(s[j]), key(x)) {
      if j > 0 {
        NotBeforeChains(key(x), key(s[0]), key(s[j]));
      }
    }
  }

  lemma {:induction false} InsertAscends<T>(x: T, s: seq<T>, key: T -> Text)
    requires Ascending(s, key)
    ensures Ascending(Insert(x, s, key), key)
    ensures Insert(x, s, key)[0] == x || (s != [] && Insert(x, s, key)[0] == s[0])
  {
    hide Before;
    if s == [] || !Before(key(s[0]), key(x)) {
      ConsAscending(x, s, key);
    } else {
      BeforeTotal(key(s[0]), key(x));
      InsertAscends(x, s[1..], key);
      ConsAscending(s[0], Insert(x, s[1..], key), key);
    }
  }

  lemma {:induction false} SortAscends<T>(s: seq<T>, key: T -> Text)
    ensures Ascending(Sort(s, key), key)
  {
    if s != [] {
      SortAscends(s[1..], key);
      InsertAscends(s[0], Sort(s[1..], key), key);
    }
  }

  /** The least key of an ascending list comes first in every ascending list of the same records. */
  lemma LeastFirst<T>(a: seq<T>, b: seq<T>, key: T -> Text)
    requires a != [] && b != [] && multiset(a) == multiset(b) && Keyed(a, key) && Ascending(a, key) && Ascending(b, key)
    ensures a[0] == b[0]
  {
    hide Before;
    assert a[0] in multiset(b) && b[0] in multiset(a);
    var i :| 0 <= i < |b| && b[i] == a[0];
    var j :| 0 <= j < |a| && a[j] == b[0];
    BeforeTotal(key(a[0]), key(b[0]));
    assert i > 0 ==> !Before(key(b[i]), key(b[0]));
    assert j > 0 ==> !Before(key(a[j]), key(a[0]));
  }

  lemma TailKept<T>(a: seq<T>, key: T -> Text)
    requires a != []
    ensures a == [a[0]] + a[1..] && multiset(a[1..]) == multiset(a) - multiset{a[0]}
    ensures (Keyed(a, key) ==> Keyed(a[1..], key)) && (Ascending(a, key) ==> Ascending(a[1..], key))
  {
    assert a == [a[0]] + a[1..];
  }

  lemma {:induction false} AscendingUnique<T>(a: seq<T>, b: seq<T>, key: T -> Text)
    requires multiset(a) == multiset(b) && Keyed(a, key) && Ascending(a, key) && Ascending(b, key)
    ensures a == b
  {
    hide Keyed, Ascending;
    assert |a| == |multiset(a)| && |b| == |multiset(b)|;
    if a != [] {
      LeastFirst(a, b, key);
      TailKept(a, key);
      TailKept(b, key);
      AscendingUnique(a[1..], b[1..], key);
    }
  }

  lemma KeyedPermutes<T>(a: seq<T>, b: seq<T>, key: T -> Text)
    requires multiset(a) == multiset(b) && Keyed(a, key)
    ensures Keyed(b, key)
  {
    forall i, j | 0 <= i < j < |b| ensures key(b[i]) != key(b[j]) {
      if key(b[i]) == key(b[j]) {
        SameRecord(a, b, key, i, j);
        var x := b[i];
        assert b == b[..i] + [x] + b[i + 1..j] + [b[j]] + b[j + 1..];
        assert multiset(b)[x] >= 2;
        OnceOnly(a, x, key);
      }
    }
  }

  lemma SameRecord<T>(a: seq<T>, b: seq<T>, key: T -> Text, i: nat, j: nat)
    requires multiset(a) == multiset(b) && Keyed(a, key) && i < |b| && j < |b| && key(b[i]) == key(b[j])
    ensures b[i] == b[j]
  {
    assert b[i] in multiset(a) && b[j] in multiset(a);
    var k :| 0 <= k < |a| && a[k] == b[i];
    var l :| 0 <= l < |a| && a[l] == b[j];
    assert k != l ==> (k < l || l < k);
  }

  lemma {:induction false} OnceOnly<T>(a: seq<T>, x: T, key: T -> Text)
    requires Keyed(a, key)
    ensures multiset(a)[x] <= 1
  {
    if a != [] {
      assert a == [a[0]] + a[1..];
      OnceOnly(a[1..], x, key);
      if x == a[0] {
        assert forall k :: 1 <= k < |a| ==> a[k] != a[0];
        assert x !in a[1..];
      }
    }
  }

  /** Records with distinct keys sort alike whatever order they come in. */
  lemma SortIgnoresOrder<T>(a: seq<T>, b: seq<T>, key: T -> Text)
    requires multiset(a) == multiset(b) && Keyed(a, key)
    ensures Sort(a, key) == Sort(b, key)
  {
    SortKeeps(a, key);
    SortKeeps(b, key);
    SortAscends(a, key);
    SortAscends(b, key);
    KeyedPermutes(a, Sort(a, key), key);
    AscendingUnique(Sort(a, key), Sort(b, key), key);
  }
}
