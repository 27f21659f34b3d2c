/** Character-level helpers for the ASCII text the services inspect. */
module Strings {

  /** The class `[0-9]`. */
  predicate IsAsciiDigit(c: char) {
    '0' <= c <= '9'
  }

  predicate IsAsciiUpper(c: char) {
    'A' <= c <= 'Z'
  }

  function ToLowerChar(c: char): (r: char)
    ensures IsAsciiUpper(c) ==> r as int == c as int + 32
    ensures !IsAsciiUpper(c) ==> r == c
    ensures !IsAsciiUpper(r)
  {
    if IsAsciiUpper(c) then (c as int + 32) as char else c
  }

  /** `str.lower()` restricted to ASCII letters. */
  function ToLower(s: string): (r: string)
    ensures |r| == |s|
    ensures forall i | 0 <= i < |s| :: r[i] == ToLowerChar(s[i])
  {
    seq(|s|, i requires 0 <= i < |s| => ToLowerChar(s[i]))
  }

  /** `str.rfind(c)`: the last index holding `c`, or -1. */
  function LastIndexOf(s: string, c: char): (r: int)
    ensures -1 <= r < |s|
    ensures r >= 0 ==> s[r] == c
    ensures forall k | r < k < |s| :: s[k] != c
  {
    if s == [] then -1
    else if s[|s| - 1] == c then |s| - 1
    else LastIndexOf(s[..|s| - 1], c)
  }

  /** True when every character of `s` is `c`, checked from the front. */
  predicate AllEqual(s: string, c: char) {
    s == [] || (s[0] == c && AllEqual(s[1..], c))
  }

  /** Every position of an all-`c` string holds `c`. */
  lemma {:induction false} AllEqualAt(s: string, c: char, i: int)
    requires AllEqual(s, c) && 0 <= i < |s|
    ensures s[i] == c
    decreases i
  {
    if i > 0 {
      AllEqualAt(s[1..], c, i - 1);
    }
  }

  /** Pinning down `LastIndexOf` from the position of the last `c`. */
  lemma LastIndexOfIs(s: string, c: char, i: int)
    requires 0 <= i < |s| && s[i] == c
    requires forall k | i < k < |s| :: s[k] != c
    ensures LastIndexOf(s, c) == i
  {
  }

  /** No `c` from position `i` on puts the last `c` before `i`. */
  lemma LastIndexOfBefore(s: string, c: char, i: int)
    requires 0 <= i <= |s|
    requires forall k | i <= k < |s| :: s[k] != c
    ensures LastIndexOf(s, c) < i
  {
  }
}
