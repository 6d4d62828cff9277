// Model of code/strflip.py: a loop that walks an index down from the end of
// the string, appending each character, and stops as soon as the character
// it appended equals the string's first character.

module StrFlip {
  import FlipList

  /**
   * What `strflip` returns for a non-empty `s`: with `k` the largest index
   * holding the character `s[0]`, the characters `s[n-1], s[n-2], ..., s[k]`.
   */
  predicate ReadsBackToFirstChar(s: string, r: string)
  {
    var k := |s| - |r|;
    0 <= k < |s| &&
    s[k] == s[0] &&
    (forall j :: k < j < |s| ==> s[j] != s[0]) &&
    (forall j :: 0 <= j < |r| ==> r[j] == s[|s| - 1 - j])
  }

  /** The loop as written: it breaks when the character equals `s[0]`. */
  method StrFlip(s: string) returns (flipped: string)
    ensures |s| == 0 ==> flipped == ""
    ensures |s| > 0 ==> ReadsBackToFirstChar(s, flipped)
  {
    flipped := "";
    var i := |s|;
    if i == 0 {
      return "";
    }
    while true
      invariant 0 < i <= |s|
      invariant |flipped| == |s| - i
      invariant forall j :: 0 <= j < |flipped| ==> flipped[j] == s[|s| - 1 - j]
      invariant forall j :: i <= j < |s| ==> s[j] != s[0]
      decreases i
    {
      i := i - 1;
      var c := s[i];
      flipped := flipped + [c];
      // the stop test compares characters, not the index
      if c == s[0] {
        break;
      }
    }
  }

  /** The characterisation pins the result down: at most one string satisfies it. */
  lemma {:induction false} ReadsBackDeterministic(s: string, r1: string, r2: string)
    requires ReadsBackToFirstChar(s, r1) && ReadsBackToFirstChar(s, r2)
    ensures r1 == r2
  {
    assert |r1| == |r2|;
    forall j | 0 <= j < |r1|
      ensures r1[j] == r2[j]
    {
    }
  }

  /** The result is a non-empty prefix of the full reversal. */
  lemma PrefixOfReversal(s: string, r: string)
    requires ReadsBackToFirstChar(s, r)
    ensures 1 <= |r| <= |s|
    ensures r == FlipList.Flipped(s)[..|r|]
  {
  }

  /** When `s[0]` occurs nowhere else, the loop does deliver the full reversal. */
  lemma {:induction false} FullReversalWhenFirstCharUnique(s: string, r: string)
    requires |s| > 0
    requires forall j :: 0 < j < |s| ==> s[j] != s[0]
    requires ReadsBackToFirstChar(s, r)
    ensures r == FlipList.Flipped(s)
  {
    assert |r| == |s|;
  }

  /** A single character flips to itself. */
  lemma OneCharFlipsToItself(c: char, r: string)
    requires ReadsBackToFirstChar([c], r)
    ensures r == [c]
  {
  }

  /**
   * The repeated-character case: for "abca" the loop stops after the first
   * character it reads, so the result is "a", not the reversal "acba".
   */
  lemma {:induction false} RepeatedFirstCharTruncates(r: string)
    requires ReadsBackToFirstChar("abca", r)
    ensures r == "a"
    ensures r != FlipList.Flipped("abca") && FlipList.Flipped("abca") == "acba"
  {
    var s := "abca";
    assert s[3] == s[0];
    assert |r| == 1;
    var f := FlipList.Flipped(s);
    assert f[0] == 'a' && f[1] == 'c' && f[2] == 'b' && f[3] == 'a';
  }

  /** The evidently intended loop: it stops when the index reaches 0. */
  method StrFlipFixed(s: string) returns (flipped: string)
    ensures flipped == FlipList.Flipped(s)
  {
    flipped := "";
    var i := |s|;
    if i == 0 {
      return "";
    }
    while true
      invariant 0 < i <= |s|
      invariant |flipped| == |s| - i
      invariant forall j :: 0 <= j < |flipped| ==> flipped[j] == s[|s| - 1 - j]
      decreases i
    {
      i := i - 1;
      flipped := flipped + [s[i]];
      if i == 0 {
        break;
      }
    }
  }
}
