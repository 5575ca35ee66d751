/** First occurrences of one text in another. */
module Searching {

  predicate At(s: string, i: int, pattern: string) {
    0 <= i && i + |pattern| <= |s| && s[i..i + |pattern|] == pattern
  }

  /** Where the pattern first occurs at or after an index, or -1. */
  function IndexOf(s: string, pattern: string, from: nat): (r: int)
    ensures r == -1 || (from <= r && At(s, r, pattern))
    ensures forall i: nat :: from <= i && (r == -1 || i < r) ==> !At(s, i, pattern)
    decreases |s| - from
  {
    if from + |pattern| > |s| then -1
    else if At(s, from, pattern) then from
    else IndexOf(s, pattern, from + 1)
  }

  /** No occurrence begins in the text, even one that runs into what follows. */
  ghost predicate Clear(text: string, pattern: string, after: string) {
    forall i :: 0 <= i < |text| ==> !At(text + after, i, pattern)
  }

  lemma AtShift(before: string, s: string, i: nat, pattern: string)
    ensures At(before + s, |before| + i, pattern) <==> At(s, i, pattern)
  {
    if i + |pattern| <= |s| {
      assert (before + s)[|before| + i..|before| + i + |pattern|] == s[i..i + |pattern|];
    }
  }

  lemma AtReads(s: string, i: nat, pattern: string, k: nat)
    requires k < |pattern|
    ensures At(s, i, pattern) ==> i + k < |s| && s[i + k] == pattern[k]
  {
    assert At(s, i, pattern) ==> s[i..i + |pattern|][k] == s[i + k];
  }

  lemma AtWithin(text: string, after: string, i: nat, pattern: string)
    requires i + |pattern| <= |text|
    ensures At(text + after, i, pattern) <==> At(text, i, pattern)
  {
    assert (text + after)[i..i + |pattern|] == text[i..i + |pattern|];
  }

  lemma AtSlice(s: string, from: nat, end: nat, i: nat, pattern: string)
    requires from <= end <= |s|
    ensures At(s[from..end], i, pattern) ==> At(s, from + i, pattern)
  {
    if i + |pattern| <= end - from {
      var t, rest := s[from..end], s[end..];
      assert s == s[..from] + (t + rest);
      AtWithin(t, rest, i, pattern);
      AtShift(s[..from], t + rest, i, pattern);
    }
  }

  lemma SliceJoins(s: string, i: nat, j: nat, k: nat)
    requires i <= j <= k <= |s|
    ensures s[i..j] + s[j..k] == s[i..k]
  {
  }

  lemma FirstIs(s: string, pattern: string, from: nat, r: nat)
    requires from <= r && At(s, r, pattern) && forall i: nat :: from <= i < r ==> !At(s, i, pattern)
    ensures IndexOf(s, pattern, from) == r
  {
    hide At, IndexOf;
  }

  lemma FoundAt(before: string, text: string, pattern: string, after: string)
    requires Clear(text, pattern, pattern + after)
    ensures IndexOf(before + text + pattern + after, pattern, |before|) == |before| + |text|
  {
    hide At, IndexOf;
    var tail := text + (pattern + after);
    assert before + text + pattern + after == before + tail;
    forall i: nat | |before| <= i < |before| + |text| ensures !At(before + tail, i, pattern) {
      var j: nat := i - |before|;
      assert |before| + j == i;
      AtShift(before, tail, j, pattern);
    }
    AtShift(before, tail, |text|, pattern);
    AtShift(text, pattern + after, 0, pattern);
    Begins(pattern, after);
    FirstIs(before + tail, pattern, |before|, |before| + |text|);
  }

  lemma Begins(pattern: string, after: string)
    ensures At(pattern + after, 0, pattern)
  {
    assert (pattern + after)[..|pattern|] == pattern;
  }

  /** A pattern whose first character does not come back in it cannot occur early by overlapping itself. */
  lemma NoEarlyOverlap(text: string, pattern: string, after: string)
    requires pattern != "" && forall k :: 0 < k < |pattern| ==> pattern[k] != pattern[0]
    requires forall i :: 0 <= i <= |text| ==> !At(text, i, pattern)
    ensures Clear(text, pattern, pattern + after)
  {
    hide At;
    var s := text + (pattern + after);
    forall i | 0 <= i < |text| ensures !At(s, i, pattern) {
      if i + |pattern| <= |text| {
        AtWithin(text, pattern + after, i, pattern);
      } else {
        AtReads(s, i, pattern, |text| - i);
      }
    }
  }
}
