/**
 The Python string operations the formatter and the autocompleter use,
 on `seq<char>`: slicing with Python's reading of the bounds, `startswith`
 and `str.join`.
 */
module Strings {

  /** Python's reading of a slice bound `i` for a sequence of length `n`: a
      negative bound counts from the end, and the result is clamped to
      `0..n`. */
  function SliceBound(n: nat, i: int): (b: nat)
    ensures b <= n
  {
    if i < 0 then (if n + i < 0 then 0 else n + i)
    else if i > n then n
    else i
  }

  /** `s[i:j]`: empty when the bounds cross, never out of range. */
  function PySlice(s: string, i: int, j: int): (r: string)
    ensures |r| <= |s|
  {
    var a := SliceBound(|s|, i);
    var b := SliceBound(|s|, j);
    if a <= b then s[a..b] else []
  }

  /** Within the string, a slice is the subsequence between its bounds;
      from a bound past the end it is empty. */
  lemma PySliceInRange(s: string, i: int, j: int)
    ensures 0 <= i <= j <= |s| ==> PySlice(s, i, j) == s[i..j]
    ensures 0 <= j <= i ==> PySlice(s, i, j) == []
    ensures |s| <= i ==> PySlice(s, i, j) == []
  {
  }

  /** Moving the end of a slice to the right only extends it: `s[i:j]` is a
      prefix of `s[i:k]` when `j <= k` and both are non-negative. */
  lemma PySlicePrefix(s: string, i: nat, j: nat, k: nat)
    requires j <= k
    ensures StartsWith(PySlice(s, i, k), PySlice(s, i, j))
  {
  }

  /** `s.startswith(p)`. */
  predicate StartsWith(s: string, p: string) {
    |p| <= |s| && s[..|p|] == p
  }

  lemma StartsWithTrans(s: string, p: string, q: string)
    requires StartsWith(s, p) && StartsWith(p, q)
    ensures StartsWith(s, q)
  {
    assert s[..|q|] == s[..|p|][..|q|];
  }

  /** `sep.join(parts)`. */
  function Join(sep: string, parts: seq<string>): (r: string)
    ensures |parts| == 0 ==> r == []
    ensures |parts| == 1 ==> r == parts[0]
    decreases |parts|
  {
    if |parts| == 0 then []
    else if |parts| == 1 then parts[0]
    else parts[0] + sep + Join(sep, parts[1..])
  }

  /** Joining one more part appends the separator and that part: together
      with the cases of no part and one part, this pins `Join` down as the
      parts in order with `sep` between each neighbouring pair. */
  lemma {:induction false} JoinAppend(sep: string, parts: seq<string>, p: string)
    requires |parts| > 0
    ensures Join(sep, parts + [p]) == Join(sep, parts) + sep + p
    decreases |parts|
  {
    assert (parts + [p])[1..] == parts[1..] + [p];
    if |parts| > 1 {
      JoinAppend(sep, parts[1..], p);
    }
  }
}
