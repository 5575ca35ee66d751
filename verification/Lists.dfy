/** Mapping, filtering and searching lists, and what of it depends on their order. */
module Lists {
  import opened Results
  import opened Ordering

  function Map<T, U>(s: seq<T>, f: T -> U): (r: seq<U>)
    ensures |r| == |s| && forall i :: 0 <= i < |s| ==> r[i] == f(s[i])
  {
    if s == [] then [] else [f(s[0])] + Map(s[1..], f)
  }

  function Filter<T(!new)>(s: seq<T>, p: T -> bool): (r: seq<T>)
    ensures forall x :: x in r <==> x in s && p(x)
  {
    if s == [] then [] else (if p(s[0]) then [s[0]] else []) + Filter(s[1..], p)
  }

  /** The first record with a key. */
  function Find<T>(s: seq<T>, key: T -> Text, k: Text): (r: Option<T>)
    ensures r.Some? ==> r.value in s && key(r.value) == k
    ensures r.None? ==> forall x :: x in s ==> key(x) != k
  {
    if s == [] then None else if key(s[0]) == k then Some(s[0]) else Find(s[1..], key, k)
  }

  /** The first record that meets a condition. */
  function First<T>(s: seq<T>, p: T -> bool): (r: Option<T>)
    ensures r.Some? ==> r.value in s && p(r.value)
    ensures r.None? <==> forall x :: x in s ==> !p(x)
  {
    if s == [] then None else if p(s[0]) then Some(s[0]) else First(s[1..], p)
  }

  lemma SamePlaces<T>(a: seq<T>, b: seq<T>)
    requires multiset(a) == multiset(b)
    ensures |a| == |b| && forall x :: x in a <==> x in b
  {
    assert |a| == |multiset(a)| && |b| == |multiset(b)|;
    assert forall x :: x in a <==> x in multiset(a);
    assert forall x :: x in b <==> x in multiset(b);
  }

  lemma Without<T>(b: seq<T>, k: nat)
    requires k < |b|
    ensures multiset(b) == multiset(b[..k] + b[k + 1..]) + multiset{b[k]}
  {
    assert b == b[..k] + [b[k]] + b[k + 1..];
  }

  lemma Place<T>(a: seq<T>, b: seq<T>) returns (k: nat)
    requires multiset(a) == multiset(b) && a != []
    ensures k < |b| && b[k] == a[0]
  {
    assert a[0] in multiset(a);
    assert a[0] in b;
    k :| 0 <= k < |b| && b[k] == a[0];
  }

  /** Taking one occurrence out of both of two reorderings leaves two reorderings. */
  lemma TakeOut<T>(a: seq<T>, b: seq<T>) returns (k: nat)
    requires multiset(a) == multiset(b) && a != []
    ensures k < |b| && b[k] == a[0] && multiset(a[1..]) == multiset(b[..k] + b[k + 1..])
  {
    k := Place(a, b);
    Without(b, k);
    Without(a, 0);
    assert a[..0] + a[1..] == a[1..];
    Cancel(multiset(a[1..]), multiset(b[..k] + b[k + 1..]), a[0]);
  }

  lemma Cancel<T>(m: multiset<T>, n: multiset<T>, x: T)
    requires m + multiset{x} == n + multiset{x}
    ensures m == n
  {
    assert m == m + multiset{x} - multiset{x};
    assert n == n + multiset{x} - multiset{x};
  }

  lemma {:induction false} MapJoins<T, U>(a: seq<T>, b: seq<T>, f: T -> U)
    ensures Map(a + b, f) == Map(a, f) + Map(b, f)
  {
    if a == [] {
      assert a + b == b;
    } else {
      assert (a + b)[1..] == a[1..] + b;
      MapJoins(a[1..], b, f);
    }
  }

  lemma {:induction false} MapPermutes<T, U>(a: seq<T>, b: seq<T>, f: T -> U)
    requires multiset(a) == multiset(b)
    ensures multiset(Map(a, f)) == multiset(Map(b, f))
  {
    if a == [] {
      SamePlaces(a, b);
    } else {
      var k := TakeOut(a, b);
      MapPermutes(a[1..], b[..k] + b[k + 1..], f);
      assert b == b[..k] + ([b[k]] + b[k + 1..]);
      MapJoins(b[..k], [b[k]] + b[k + 1..], f);
      MapJoins([b[k]], b[k + 1..], f);
      MapJoins(b[..k], b[k + 1..], f);
    }
  }

  lemma {:induction false} FilterJoins<T(!new)>(a: seq<T>, b: seq<T>, p: T -> bool)
    ensures Filter(a + b, p) == Filter(a, p) + Filter(b, p)
  {
    if a == [] {
      assert a + b == b;
    } else {
      assert (a + b)[1..] == a[1..] + b;
      FilterJoins(a[1..], b, p);
    }
  }

  lemma FilterFront<T(!new)>(s: seq<T>, p: T -> bool)
    requires s != []
    ensures Filter(s, p) == (if p(s[0]) then [s[0]] else []) + Filter(s[1..], p)
  {
  }

  lemma JoinThree<T>(a: seq<T>, b: seq<T>, c: seq<T>)
    ensures a + (b + c) == a + b + c
  {
  }

  lemma Cut<T>(b: seq<T>, k: nat)
    requires k < |b|
    ensures b[..k] + b[k..] == b && b[k..] != [] && b[k..][0] == b[k] && b[k..][1..] == b[k + 1..]
  {
  }

  lemma FilterMiddle<T(!new)>(b: seq<T>, k: nat, p: T -> bool)
    requires k < |b|
    ensures Filter(b, p) == Filter(b[..k], p) + (if p(b[k]) then [b[k]] else []) + Filter(b[k + 1..], p)
    ensures Filter(b[..k] + b[k + 1..], p) == Filter(b[..k], p) + Filter(b[k + 1..], p)
  {
    hide Filter;
    Cut(b, k);
    var front, back, rest := b[..k], b[k..], b[k + 1..];
    FilterJoins(front, rest, p);
    FilterJoins(front, back, p);
    FilterFront(back, p);
    JoinThree(Filter(front, p), if p(b[k]) then [b[k]] else [], Filter(rest, p));
  }

  /** Moving a piece to the front permutes. */
  lemma Regroup<T>(x: seq<T>, y: seq<T>, z: seq<T>)
    ensures multiset(x + y + z) == multiset(y) + multiset(x + z)
  {
  }

  lemma {:induction false} FilterPermutes<T(!new)>(a: seq<T>, b: seq<T>, p: T -> bool)
    requires multiset(a) == multiset(b)
    ensures multiset(Filter(a, p)) == multiset(Filter(b, p))
  {
    if a == [] {
      SamePlaces(a, b);
    } else {
      var k := TakeOut(a, b);
      hide Filter;
      FilterPermutes(a[1..], b[..k] + b[k + 1..], p);
      FilterMiddle(b, k, p);
      FilterFront(a, p);
      Regroup(Filter(b[..k], p), if p(b[k]) then [b[k]] else [], Filter(b[k + 1..], p));
    }
  }

  /** Records with distinct keys are found alike whatever order they come in. */
  lemma FindPermutes<T>(a: seq<T>, b: seq<T>, key: T -> Text, k: Text)
    requires multiset(a) == multiset(b) && Keyed(a, key)
    ensures Find(a, key, k) == Find(b, key, k)
  {
    SamePlaces(a, b);
    var x, y := Find(a, key, k), Find(b, key, k);
    if x.Some? && y.Some? {
      var i :| 0 <= i < |a| && a[i] == x.value;
      var j :| 0 <= j < |a| && a[j] == y.value;
      assert i != j ==> (i < j || j < i);
    }
  }

  lemma {:induction false} MapAgrees<T, U>(s: seq<T>, f: T -> U, g: T -> U)
    requires forall x :: x in s ==> f(x) == g(x)
    ensures Map(s, f) == Map(s, g)
  {
    if s != [] {
      MapAgrees(s[1..], f, g);
    }
  }

  lemma {:induction false} FilterAgrees<T(!new)>(s: seq<T>, p: T -> bool, q: T -> bool)
    requires forall x :: x in s ==> p(x) == q(x)
    ensures Filter(s, p) == Filter(s, q)
  {
    if s != [] {
      FilterAgrees(s[1..], p, q);
    }
  }

  lemma {:induction false} FilterKeyed<T(!new)>(s: seq<T>, p: T -> bool, key: T -> Text)
    requires Keyed(s, key)
    ensures Keyed(Filter(s, p), key)
  {
    if s != [] {
      FilterKeyed(s[1..], p, key);
      var rest := Filter(s[1..], p);
      forall j | 0 <= j < |rest| ensures key(s[0]) != key(rest[j]) {
        assert rest[j] in s[1..];
        var k :| 0 <= k < |s[1..]| && s[1..][k] == rest[j];
        assert s[k + 1] == rest[j];
      }
    }
  }

  // ----- lists without duplicates -----

  lemma SubsetSize<T>(a: set<T>, b: set<T>)
    requires a <= b
    ensures |a| <= |b|
    ensures |a| == |b| ==> a == b
  {
    assert b == a + (b - a);
  }

  function Elements<T>(s: seq<T>): set<T> {
    set x | x in s
  }

  ghost predicate NoDuplicates<T>(s: seq<T>) {
    forall i, j :: 0 <= i < j < |s| ==> s[i] != s[j]
  }

  lemma ElementsStep<T>(s: seq<T>)
    requires s != []
    ensures Elements(s) == Elements(s[1..]) + {s[0]}
  {
    assert s == [s[0]] + s[1..];
  }

  /** A list has as many members as places exactly when no member comes twice. */
  lemma {:induction false} SizeTells<T>(s: seq<T>)
    ensures |Elements(s)| <= |s|
    ensures |Elements(s)| == |s| <==> NoDuplicates(s)
  {
    if s != [] {
      SizeTells(s[1..]);
      ElementsStep(s);
      if s[0] in s[1..] {
        var k :| 0 <= k < |s[1..]| && s[1..][k] == s[0];
        assert s[k + 1] == s[0];
        assert Elements(s) == Elements(s[1..]);
      } else {
        forall i | 1 <= i < |s| ensures s[i] != s[0] {
          assert s[i] == s[1..][i - 1];
        }
        NoDuplicatesStep(s);
      }
    }
  }

  lemma NoDuplicatesStep<T>(s: seq<T>)
    requires s != [] && forall i :: 1 <= i < |s| ==> s[i] != s[0]
    ensures NoDuplicates(s) <==> NoDuplicates(s[1..])
  {
    if NoDuplicates(s[1..]) {
      forall i, j | 0 <= i < j < |s| ensures s[i] != s[j] {
        if i > 0 {
          assert s[1..][i - 1] == s[i] && s[1..][j - 1] == s[j];
        }
      }
    }
  }

  /** Keys that are all different, told by the size of their set. */
  lemma KeysTell<T>(s: seq<T>, key: T -> Text)
    ensures |Elements(Map(s, key))| == |Map(s, key)| <==> Keyed(s, key)
  {
    SizeTells(Map(s, key));
  }
}
