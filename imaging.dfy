/**
 * Imaging: the text and size decisions made before an image is requested. `clean_prompt` trims
 * the chatter a language model wraps around an image prompt (a "Prompt:" header line, wrapping
 * double quotes); the large and dynamic variants choose the image's width and height.
 */
module Imaging {
  import opened Strings

  // ---------------------------------------------------------------- Python string operations, ASCII

  /** `s.split(sep)`: the pieces between the occurrences of sep; one piece when sep does not occur. */
  function Split(s: string, sep: char): (parts: seq<string>)
    ensures |parts| >= 1
    ensures forall i :: 0 <= i < |parts| ==> sep !in parts[i]
    ensures parts[0] == Before(s, sep)
    decreases |s|
  {
    var b := Before(s, sep);
    if |b| == |s| then [s] else [b] + Split(After(s, sep), sep)
  }

  /** `sep.join(parts)` */
  function Join(sep: char, parts: seq<string>): string
  {
    if |parts| == 0 then ""
    else if |parts| == 1 then parts[0]
    else parts[0] + [sep] + Join(sep, parts[1..])
  }

  /**
   * The joined text starts with the first piece; when that piece holds no sep, splitting the
   * joined text gives it back as the first piece, and sep occurs exactly when there are two pieces or more.
   */
  lemma JoinFirst(sep: char, parts: seq<string>)
    ensures |parts| == 0 ==> Join(sep, parts) == ""
    ensures |parts| > 0 ==> parts[0] <= Join(sep, parts)
    ensures |parts| > 0 && sep !in parts[0] ==> Before(Join(sep, parts), sep) == parts[0]
    ensures |parts| > 0 && sep !in parts[0] ==> (|parts| >= 2 <==> sep in Join(sep, parts))
  {
    if |parts| >= 2 {
      var s := Join(sep, parts);
      assert s == parts[0] + [sep] + Join(sep, parts[1..]);
      assert s[|parts[0]|] == sep;
      if sep !in parts[0] {
        BeforeOfPrefix(parts[0], Join(sep, parts[1..]), sep);
      }
    }
  }

  /** A string is the text before its first separator, the separator, and the text after it. */
  lemma BeforeAfter(s: string, sep: char)
    requires sep in s
    ensures s == Before(s, sep) + [sep] + After(s, sep)
    ensures |After(s, sep)| < |s|
  {
    assert |Before(s, sep)| < |s|;
  }

  /** Splitting and joining again gives back the string. */
  lemma {:induction false} JoinSplit(s: string, sep: char)
    ensures Join(sep, Split(s, sep)) == s
    decreases |s|
  {
    if sep in s {
      BeforeAfter(s, sep);
      JoinSplit(After(s, sep), sep);
    }
  }

  /** There is a single piece exactly when the separator does not occur. */
  lemma SplitOnePiece(s: string, sep: char)
    ensures |Split(s, sep)| == 1 <==> sep !in s
  {
    if sep in s {
      BeforeAfter(s, sep);
    }
  }

  /** The pieces after the first, joined, are the text after the first separator. */
  lemma JoinTail(s: string, sep: char)
    requires sep in s
    ensures |Split(s, sep)| >= 2
    ensures Join(sep, Split(s, sep)[1..]) == After(s, sep)
  {
    BeforeAfter(s, sep);
    JoinSplit(After(s, sep), sep);
  }

  function LowerChar(c: char): char
  {
    if 'A' <= c <= 'Z' then (c as int - 'A' as int + 'a' as int) as char else c
  }

  /** `s.lower()` on ASCII letters. */
  function Lower(s: string): (r: string)
    ensures |r| == |s| && forall i :: 0 <= i < |s| ==> r[i] == LowerChar(s[i])
  {
    seq(|s|, i requires 0 <= i < |s| => LowerChar(s[i]))
  }

  /** sub occurs in s at position i. */
  predicate OccursAt(s: string, sub: string, i: int)
  {
    0 <= i && i + |sub| <= |s| && s[i..i + |sub|] == sub
  }

  /** `sub in s` */
  function Contains(s: string, sub: string): (b: bool)
    ensures b <==> exists i :: OccursAt(s, sub, i)
    decreases |s|
  {
    if |sub| > |s| then false
    else if s[..|sub|] == sub then assert OccursAt(s, sub, 0); true
    else
      var rest := Contains(s[1..], sub);
      assert rest ==> exists i :: OccursAt(s, sub, i) by {
        if rest {
          var i :| OccursAt(s[1..], sub, i);
          assert s[i + 1..i + 1 + |sub|] == s[1..][i..i + |sub|];
          assert OccursAt(s, sub, i + 1);
        }
      }
      assert (exists i :: OccursAt(s, sub, i)) ==> rest by {
        if exists i :: OccursAt(s, sub, i) {
          var i :| OccursAt(s, sub, i);
          assert i != 0;
          assert s[1..][i - 1..i - 1 + |sub|] == s[i..i + |sub|];
          assert OccursAt(s[1..], sub, i - 1);
        }
      }
      rest
  }

  /** The whitespace `str.strip()` removes, restricted to ASCII: space, \t \n \v \f \r and \x1c..\x1f. */
  predicate IsSpace(c: char)
  {
    c == ' ' || 9 <= c as int <= 13 || 28 <= c as int <= 31
  }

  function StripLeft(s: string): (r: string)
    ensures |r| <= |s| && r == s[|s| - |r|..]
    ensures forall i :: 0 <= i < |s| - |r| ==> IsSpace(s[i])
    ensures |r| > 0 ==> !IsSpace(r[0])
  {
    if |s| > 0 && IsSpace(s[0]) then StripLeft(s[1..]) else s
  }

  function StripRight(s: string): (r: string)
    ensures |r| <= |s| && r == s[..|r|]
    ensures forall i :: |r| <= i < |s| ==> IsSpace(s[i])
    ensures |r| > 0 ==> !IsSpace(r[|r| - 1])
  {
    if |s| > 0 && IsSpace(s[|s| - 1]) then StripRight(s[..|s| - 1]) else s
  }

  /** r is s[i..i + |r|] and everything outside that slice is whitespace. */
  predicate StrippedAt(s: string, r: string, i: int)
  {
    && 0 <= i <= i + |r| <= |s| && r == s[i..i + |r|]
    && (forall k :: 0 <= k < i ==> IsSpace(s[k]))
    && (forall k :: i + |r| <= k < |s| ==> IsSpace(s[k]))
  }

  /** `s.strip()`: leading and trailing whitespace removed. */
  function Strip(s: string): (r: string)
    ensures |r| > 0 ==> !IsSpace(r[0]) && !IsSpace(r[|r| - 1])
  {
    StripRight(StripLeft(s))
  }

  /**
   * What stripping keeps is a slice of s outside which there is only whitespace; with the ends of
   * the slice being non-spaces, it is the longest such slice ("" when s is all whitespace).
   */
  lemma StripSlice(s: string)
    ensures exists i :: StrippedAt(s, Strip(s), i)
  {
    var left := StripLeft(s);
    var i := |s| - |left|;
    var r := StripRight(left);
    SliceOfSuffix(s, left, r, i);
    assert Strip(s) == r;
    assert StrippedAt(s, r, i);
  }

  /** A prefix r of the suffix s[i..], followed in it only by whitespace, is a slice of s followed by whitespace. */
  lemma SliceOfSuffix(s: string, left: string, r: string, i: nat)
    requires i <= |s| && left == s[i..] && |r| <= |left| && r == left[..|r|]
    requires forall k :: |r| <= k < |left| ==> IsSpace(left[k])
    ensures i + |r| <= |s| && r == s[i..i + |r|]
    ensures forall k :: i + |r| <= k < |s| ==> IsSpace(s[k])
  {
    forall k | i + |r| <= k < |s| ensures IsSpace(s[k]) {
      assert s[k] == left[k - i];
    }
  }

  /** Stripping twice is stripping once. */
  lemma StripIdempotent(s: string)
    ensures Strip(Strip(s)) == Strip(s)
  {
    var r := Strip(s);
    if |r| > 0 {
      assert StripLeft(r) == r;
      assert StripRight(r) == r;
    }
  }

  // ---------------------------------------------------------------- clean_prompt

  /** `p.startswith('"') and p.endswith('"')` */
  predicate QuoteWrapped(p: string)
  {
    |p| >= 1 && p[0] == '"' && p[|p| - 1] == '"'
  }

  /**
   * `p = p[1:-1]` when p is quote-wrapped: one character off each end. A lone '"' starts and ends
   * with a quote, and Python's slice of it is "".
   */
  function Unquote(p: string): (r: string)
    ensures !QuoteWrapped(p) ==> r == p
    ensures QuoteWrapped(p) && |p| >= 2 ==> "\"" + r + "\"" == p
    ensures p == "\"" ==> r == ""
  {
    if QuoteWrapped(p) then (if |p| >= 2 then p[1..|p| - 1] else "") else p
  }

  /** `clean_prompt(prompt)` */
  function CleanPrompt(prompt: string): (r: string)
    ensures '\n' !in prompt ==> r == prompt
    // cleaning only cuts text off the two ends of the prompt
    ensures SliceOf(r, prompt)
  {
    var lines := Split(prompt, '\n');
    SplitOnePiece(prompt, '\n');
    if |lines| == 1 then
      assert prompt == prompt[0..|prompt|];
      prompt
    else
      var p := if Contains(Lower(lines[0]), "prompt") then Strip(Join('\n', lines[1..])) else prompt;
      assert SliceOf(p, prompt) by {
        if p == prompt {
          assert prompt == prompt[0..|prompt|];
        } else {
          BodySlice(prompt);
        }
      }
      UnquoteSlice(p);
      SliceTrans(Unquote(p), p, prompt);
      Unquote(p)
  }

  /** r is a contiguous piece of s. */
  ghost predicate SliceOf(r: string, s: string)
  {
    exists i, j :: 0 <= i <= j <= |s| && r == s[i..j]
  }

  /** A slice of a slice is one slice of the whole. */
  lemma SliceOfSlice(c: string, i': nat, j': nat, i: nat, j: nat)
    requires i' <= j' <= |c| && i <= j <= j' - i'
    ensures c[i'..j'][i..j] == c[i' + i..i' + j]
  {
    assert forall k :: 0 <= k < j - i ==> c[i'..j'][i..j][k] == c[i' + i + k];
  }

  lemma SliceTrans(a: string, b: string, c: string)
    requires SliceOf(a, b) && SliceOf(b, c)
    ensures SliceOf(a, c)
  {
    var i, j :| 0 <= i <= j <= |b| && a == b[i..j];
    var i', j' :| 0 <= i' <= j' <= |c| && b == c[i'..j'];
    SliceOfSlice(c, i', j', i, j);
    assert 0 <= i' + i <= i' + j <= |c| && a == c[i' + i..i' + j];
  }

  lemma UnquoteSlice(p: string)
    ensures SliceOf(Unquote(p), p)
  {
    if QuoteWrapped(p) && |p| >= 2 {
      assert Unquote(p) == p[1..|p| - 1];
    } else if QuoteWrapped(p) {
      assert Unquote(p) == p[0..0];
    } else {
      assert p == p[0..|p|];
    }
  }

  /** The stripped text after the header line is a piece of the prompt. */
  lemma BodySlice(prompt: string)
    requires '\n' in prompt
    ensures SliceOf(Strip(Join('\n', Split(prompt, '\n')[1..])), prompt)
  {
    JoinTail(prompt, '\n');
    var a := After(prompt, '\n');
    AfterSlice(prompt, '\n');
    StripIsSlice(a);
    SliceTrans(Strip(a), a, prompt);
  }

  lemma AfterSlice(s: string, sep: char)
    requires sep in s
    ensures SliceOf(After(s, sep), s)
  {
    BeforeAfter(s, sep);
    assert After(s, sep) == s[|Before(s, sep)| + 1..|s|];
  }

  lemma StripIsSlice(s: string)
    ensures SliceOf(Strip(s), s)
  {
    StripSlice(s);
    var k :| StrippedAt(s, Strip(s), k);
    assert Strip(s) == s[k..k + |Strip(s)|];
  }


  /** A single-line prompt comes back unchanged. */
  lemma CleanSingleLine(prompt: string)
    requires '\n' !in prompt
    ensures CleanPrompt(prompt) == prompt
  {
    SplitOnePiece(prompt, '\n');
  }

  /**
   * A multi-line prompt whose first line mentions "prompt" (in any letter case) loses that line;
   * the rest is whitespace-stripped and then loses a pair of wrapping quotes.
   */
  lemma CleanDropsHeader(prompt: string)
    requires '\n' in prompt && Contains(Lower(Before(prompt, '\n')), "prompt")
    ensures CleanPrompt(prompt) == Unquote(Strip(After(prompt, '\n')))
  {
    SplitOnePiece(prompt, '\n');
    JoinTail(prompt, '\n');
  }

  /** A multi-line prompt whose first line does not mention "prompt" only loses a pair of wrapping quotes. */
  lemma CleanKeepsBody(prompt: string)
    requires '\n' in prompt && !Contains(Lower(Before(prompt, '\n')), "prompt")
    ensures CleanPrompt(prompt) == Unquote(prompt)
  {
    SplitOnePiece(prompt, '\n');
  }

  /** In particular a multi-line prompt without a header line and without wrapping quotes is unchanged. */
  lemma CleanUnchanged(prompt: string)
    requires '\n' in prompt && !Contains(Lower(Before(prompt, '\n')), "prompt") && !QuoteWrapped(prompt)
    ensures CleanPrompt(prompt) == prompt
  {
    CleanKeepsBody(prompt);
  }

  // ---------------------------------------------------------------- image sizes

  /** What `generate_image` sends: the cleaned prompt and the requested width and height. */
  datatype ImageRequest = ImageRequest(prompt: string, width: int, height: int)

  /** `generate_image_large`: a 512 x 512 image. */
  function LargeImage(prompt: string): (q: ImageRequest)
    ensures q.prompt == CleanPrompt(prompt)
    ensures q.width == q.height == 512
  {
    ImageRequest(CleanPrompt(prompt), 512, 512)
  }

  /**
   * `generate_image_dynamic`: a strip 256 high and 256 wide per cell, except that a single cell
   * gets the width of two.
   */
  function DynamicImage(prompt: string, cells: int): (q: ImageRequest)
    ensures q.prompt == CleanPrompt(prompt) && q.height == 256
    ensures cells >= 2 ==> q.width == 256 * cells
    ensures cells == 1 ==> q.width == 512
    ensures cells < 1 ==> q.width == 256 * cells
  {
    var width := if cells == 1 then 512 else cells * 256;
    ImageRequest(CleanPrompt(prompt), width, 256)
  }

  /** For one cell or more, the dynamic image is max(cells, 2) squares of the height side by side. */
  lemma DynamicImageSquares(prompt: string, cells: int)
    requires cells >= 1
    ensures var q := DynamicImage(prompt, cells);
      q.width == q.height * (if cells < 2 then 2 else cells) && q.width >= LargeImage(prompt).width
  {
  }
}
