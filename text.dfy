/**
 * String helpers shared by the models: the handful of std::string searches the
 * source relies on (find, find_first_not_of, find_last_not_of, substr), stated
 * over `seq<char>`. `npos` is represented by the length of the string.
 */
module Text {

  /** The blank set " \t" used by every trim in the source. */
  predicate IsBlank(c: char) {
    c == ' ' || c == '\t'
  }

  predicate StartsWith(s: string, prefix: string) {
    |prefix| <= |s| && s[..|prefix|] == prefix
  }

  predicate EndsWith(s: string, suffix: string) {
    |suffix| <= |s| && s[|s| - |suffix|..] == suffix
  }

  /** `s.find(sub) != npos`: `sub` occurs somewhere in `s`. */
  predicate Contains(s: string, sub: string)
    decreases |s|
  {
    StartsWith(s, sub) || (s != [] && Contains(s[1..], sub))
  }

  /** `s.find(c)`: the first index holding `c`, or `|s|` when there is none. */
  function IndexOf(s: string, c: char): (i: nat)
    ensures i <= |s|
    ensures i < |s| ==> s[i] == c
    ensures forall j :: 0 <= j < i ==> s[j] != c
  {
    if s == [] then 0
    else if s[0] == c then 0
    else 1 + IndexOf(s[1..], c)
  }

  /** `s.erase(0, s.find_first_not_of(" \t"))`: drop the leading blanks. */
  function TrimLeft(s: string): (r: string)
    ensures |r| <= |s|
    ensures r == [] || !IsBlank(r[0])
    ensures forall j :: 0 <= j < |s| - |r| ==> IsBlank(s[j])
  {
    if s != [] && IsBlank(s[0]) then TrimLeft(s[1..]) else s
  }

  /** Drop the trailing blanks. */
  function TrimRight(s: string): (r: string)
    ensures |r| <= |s| && r == s[..|r|]
    ensures r == [] || !IsBlank(r[|r| - 1])
    ensures forall j :: |r| <= j < |s| ==> IsBlank(s[j])
  {
    if s != [] && IsBlank(s[|s| - 1]) then TrimRight(s[..|s| - 1]) else s
  }

  /** `find_first_not_of(" \t") != npos`. */
  predicate HasNonBlank(s: string) {
    exists j :: 0 <= j < |s| && !IsBlank(s[j])
  }

  /** IndexOf is pinned down by its first hit. */
  lemma {:induction false} IndexOfIs(s: string, c: char, k: nat)
    requires k <= |s| && (k < |s| ==> s[k] == c)
    requires forall j :: 0 <= j < k ==> s[j] != c
    ensures IndexOf(s, c) == k
  {
  }

  lemma {:induction false} TrimLeftNoop(s: string)
    requires s != [] && !IsBlank(s[0])
    ensures TrimLeft(s) == s
  {
  }

  /** A string of blanks trims to nothing. */
  lemma {:induction false} AllBlankTrimsToEmpty(s: string)
    requires !HasNonBlank(s)
    ensures TrimLeft(s) == [] && TrimRight(s) == []
  {
    TrimLeftSuffix(s);
  }

  /** What TrimLeft keeps is a suffix of its input: all of it, or the text after the blanks it drops. */
  lemma {:induction false} TrimLeftSuffix(s: string)
    ensures |TrimLeft(s)| == |s| ==> TrimLeft(s) == s
    ensures |TrimLeft(s)| < |s| ==> TrimLeft(s) == s[|s| - |TrimLeft(s)|..]
    decreases |s|
  {
    if s != [] && IsBlank(s[0]) {
      TrimLeftSuffix(s[1..]);
      var r := TrimLeft(s);
      assert s[1..][|s| - 1 - |r|..] == s[|s| - |r|..];
    }
  }

  lemma {:induction false} ContainsLength(s: string, sub: string)
    requires Contains(s, sub)
    ensures |sub| <= |s|
    decreases |s|
  {
    if !StartsWith(s, sub) {
      ContainsLength(s[1..], sub);
    }
  }

  /** A string still contains `sub` after something is appended to it. */
  lemma {:induction false} ContainsAppend(s: string, t: string, sub: string)
    requires Contains(s, sub)
    ensures Contains(s + t, sub)
    decreases |s|
  {
    if StartsWith(s, sub) {
      assert (s + t)[..|sub|] == s[..|sub|];
    } else {
      assert (s + t)[1..] == s[1..] + t;
      ContainsAppend(s[1..], t, sub);
    }
  }

  /** Whatever the trimmed text contains, the text contains: trimming only drops a prefix. */
  lemma {:induction false} TrimLeftContains(s: string, sub: string)
    requires Contains(TrimLeft(s), sub)
    ensures Contains(s, sub)
    decreases |s|
  {
    if s != [] && IsBlank(s[0]) {
      TrimLeftContains(s[1..], sub);
    }
  }

  lemma {:induction false} AppendedSuffix(s: string, suffix: string)
    ensures EndsWith(s + suffix, suffix)
  {
    assert (s + suffix)[|s + suffix| - |suffix|..] == suffix;
  }
}
