/** Python's `s.split(sep)` on its first separator: the text before it and the text after it. */
module Strings {
  /** The text before the first occurrence of `sep`, i.e. Python's `s.split(sep)[0]`. */
  function Before(s: string, sep: char): (r: string)
    ensures |r| <= |s| && r == s[..|r|] && sep !in r
    ensures |r| < |s| ==> s[|r|] == sep
  {
    if |s| == 0 || s[0] == sep then "" else [s[0]] + Before(s[1..], sep)
  }

  /** The text after the first occurrence of `sep` ("" when there is none). */
  function After(s: string, sep: char): (r: string)
    ensures |Before(s, sep)| < |s| ==> r == s[|Before(s, sep)| + 1..]
    ensures sep in s ==> s == Before(s, sep) + [sep] + r
    ensures sep !in s ==> r == ""
  {
    var b := Before(s, sep);
    if |b| < |s| then s[|b| + 1..] else ""
  }

  lemma {:induction false} BeforeOfPrefix(a: string, b: string, sep: char)
    requires sep !in a
    ensures Before(a + [sep] + b, sep) == a
  {
    if |a| > 0 {
      assert (a + [sep] + b)[1..] == a[1..] + [sep] + b;
      BeforeOfPrefix(a[1..], b, sep);
    }
  }
}
