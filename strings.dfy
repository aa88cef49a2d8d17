/** Ordinal substring search and replacement over `string`, as .NET's `String` performs them. */
module Strings {

  /** `p` occurs in `s` starting at index `i`. */
  predicate OccursAt(s: string, p: string, i: nat) {
    i + |p| <= |s| && s[i..i + |p|] == p
  }

  predicate Contains(s: string, p: string) {
    exists i: nat | i <= |s| :: OccursAt(s, p, i)
  }

  /** Occurrences in `s[1..]` are the occurrences in `s` one index further on. */
  lemma OccursAtShift(s: string, p: string)
    requires |s| > 0
    ensures forall i: nat :: OccursAt(s[1..], p, i) <==> OccursAt(s, p, i + 1)
    ensures forall i: nat :: 1 <= i ==> (OccursAt(s, p, i) <==> OccursAt(s[1..], p, i - 1))
  {
    forall i: nat
      ensures OccursAt(s[1..], p, i) <==> OccursAt(s, p, i + 1)
    {
      if i + 1 + |p| <= |s| {
        assert s[1..][i..i + |p|] == s[i + 1..i + 1 + |p|];
      }
    }
  }

  lemma ContainsTail(s: string, p: string)
    requires |s| > 0 && !Contains(s, p)
    ensures !Contains(s[1..], p)
  {
    OccursAtShift(s, p);
  }

  lemma {:induction false} ContainsDrop(s: string, p: string, k: nat)
    requires k <= |s| && !Contains(s, p)
    ensures !Contains(s[k..], p)
    decreases k
  {
    if k > 0 {
      ContainsTail(s, p);
      ContainsDrop(s[1..], p, k - 1);
      assert s[1..][k - 1..] == s[k..];
    }
  }

  /**
   * `s.Replace(oldValue, newValue)`: every occurrence of `oldValue`, found left to right
   * without overlap, is replaced by `newValue` in a single pass. .NET refuses an empty
   * `oldValue`.
   */
  function Replace(s: string, oldValue: string, newValue: string): (r: string)
    requires oldValue != ""
    ensures newValue == oldValue ==> r == s
    ensures |newValue| == |oldValue| ==> |r| == |s|
    decreases |s|
  {
    if |s| < |oldValue| then s
    else if s[..|oldValue|] == oldValue then newValue + Replace(s[|oldValue|..], oldValue, newValue)
    else [s[0]] + Replace(s[1..], oldValue, newValue)
  }

  /** A string without an occurrence of `oldValue` comes back unchanged. */
  lemma {:induction false} ReplaceAbsent(s: string, oldValue: string, newValue: string)
    requires oldValue != "" && !Contains(s, oldValue)
    ensures Replace(s, oldValue, newValue) == s
    decreases |s|
  {
    if |s| >= |oldValue| {
      assert !OccursAt(s, oldValue, 0);
      ContainsTail(s, oldValue);
      ReplaceAbsent(s[1..], oldValue, newValue);
      assert [s[0]] + s[1..] == s;
    }
  }

  /** Replacing by something no longer never lengthens the string. */
  lemma {:induction false} ReplaceNotLonger(s: string, oldValue: string, newValue: string)
    requires oldValue != "" && |newValue| <= |oldValue|
    ensures |Replace(s, oldValue, newValue)| <= |s|
    decreases |s|
  {
    if |s| >= |oldValue| {
      if s[..|oldValue|] == oldValue {
        ReplaceNotLonger(s[|oldValue|..], oldValue, newValue);
      } else {
        ReplaceNotLonger(s[1..], oldValue, newValue);
      }
    }
  }

  /** `s.IndexOf(value, StringComparison.Ordinal)`: the first index where `value` occurs, or -1. */
  function IndexOf(s: string, value: string): (i: int)
    requires value != ""
    ensures i == -1 || (0 <= i && OccursAt(s, value, i))
    ensures i == -1 <==> !Contains(s, value)
    ensures 0 <= i ==> forall j: nat :: j < i ==> !OccursAt(s, value, j)
    decreases |s|
  {
    if |s| < |value| then -1
    else if s[..|value|] == value then 0
    else
      var k := IndexOf(s[1..], value);
      OccursAtShift(s, value);
      if k == -1 then -1 else k + 1
  }
}
