/**
 * The few java.lang.String and org.springframework.util.StringUtils operations the
 * request gate and the request validator depend on. A Java string is a sequence of
 * UTF-16 code units; here a string is a sequence of Unicode scalar values, and the
 * two places where the difference shows (String.length() and getBytes()) are
 * written out as Utf16Length and Utf8Length.
 */
module JavaStrings {

  /** Character.isWhitespace: space, line and paragraph separators except the
      non-breaking ones (U+00A0, U+2007, U+202F), and the controls U+0009-U+000D and U+001C-U+001F. */
  predicate IsWhitespace(c: char) {
    var n := c as int;
    || (0x09 <= n <= 0x0D)
    || (0x1C <= n <= 0x20)
    || n == 0x1680
    || (0x2000 <= n <= 0x2006)
    || (0x2008 <= n <= 0x200A)
    || n == 0x2028 || n == 0x2029 || n == 0x205F || n == 0x3000
  }

  /** StringUtils.hasText on a non-null string: some character is not whitespace. */
  predicate HasText(s: string) {
    exists i :: 0 <= i < |s| && !IsWhitespace(s[i])
  }

  /** String.startsWith (case-sensitive). */
  predicate StartsWith(s: string, prefix: string) {
    |prefix| <= |s| && s[..|prefix|] == prefix
  }

  /** String.contains. */
  predicate Contains(s: string, part: string)
    decreases |s|
  {
    StartsWith(s, part) || (s != [] && Contains(s[1..], part))
  }

  /** String.contains holds exactly when part occurs at some offset of s. */
  lemma {:induction false} ContainsMeans(s: string, part: string)
    ensures Contains(s, part) <==> exists k :: 0 <= k <= |s| && StartsWith(s[k..], part)
    decreases |s|
  {
    if Contains(s, part) {
      if StartsWith(s, part) {
        assert s[0..] == s;
      } else {
        ContainsMeans(s[1..], part);
        var k :| 0 <= k <= |s[1..]| && StartsWith(s[1..][k..], part);
        assert s[1..][k..] == s[k + 1..];
      }
    }
    if exists k :: 0 <= k <= |s| && StartsWith(s[k..], part) {
      var k :| 0 <= k <= |s| && StartsWith(s[k..], part);
      ContainsAt(s, part, k);
    }
  }

  /** An occurrence at any offset is found. */
  lemma {:induction false} ContainsAt(s: string, part: string, k: nat)
    requires k <= |s| && StartsWith(s[k..], part)
    ensures Contains(s, part)
    decreases k
  {
    if k == 0 {
      assert s[0..] == s;
    } else {
      assert s[1..][k - 1..] == s[k..];
      ContainsAt(s[1..], part, k - 1);
    }
  }

  /** A string shorter than the part cannot contain it. */
  lemma {:induction false} ShorterNotContains(s: string, part: string)
    requires |s| < |part|
    ensures !Contains(s, part)
    decreases |s|
  {
    if s != [] {
      ShorterNotContains(s[1..], part);
    }
  }

  /** The characters String.trim removes: every code point at or below U+0020. */
  predicate IsTrimmable(c: char) {
    c <= ' '
  }

  /** Neither end of s is a character that String.trim removes. */
  predicate IsTrimmed(s: string) {
    s != [] ==> !IsTrimmable(s[0]) && !IsTrimmable(s[|s| - 1])
  }

  /** The first loop of String.trim: skip leading trimmable characters. */
  function TrimLeading(s: string): string {
    if s != [] && IsTrimmable(s[0]) then TrimLeading(s[1..]) else s
  }

  /** The second loop of String.trim: drop trailing trimmable characters. */
  function TrimTrailing(s: string): string {
    if s != [] && IsTrimmable(s[|s| - 1]) then TrimTrailing(s[..|s| - 1]) else s
  }

  /** String.trim. */
  function Trim(s: string): string {
    TrimTrailing(TrimLeading(s))
  }

  /** The first loop removes a prefix of trimmable characters and stops at one it keeps. */
  lemma {:induction false} TrimLeadingSpec(s: string)
    ensures |TrimLeading(s)| <= |s| && TrimLeading(s) == s[|s| - |TrimLeading(s)|..]
    ensures TrimLeading(s) != [] ==> !IsTrimmable(TrimLeading(s)[0])
    ensures forall i :: 0 <= i < |s| - |TrimLeading(s)| ==> IsTrimmable(s[i])
    decreases |s|
  {
    if s != [] && IsTrimmable(s[0]) {
      TrimLeadingSpec(s[1..]);
    }
  }

  /** The second loop removes a suffix of trimmable characters and stops at one it keeps. */
  lemma {:induction false} TrimTrailingSpec(s: string)
    ensures |TrimTrailing(s)| <= |s| && TrimTrailing(s) == s[..|TrimTrailing(s)|]
    ensures TrimTrailing(s) != [] ==> !IsTrimmable(TrimTrailing(s)[|TrimTrailing(s)| - 1])
    ensures forall i :: |TrimTrailing(s)| <= i < |s| ==> IsTrimmable(s[i])
    decreases |s|
  {
    if s != [] && IsTrimmable(s[|s| - 1]) {
      TrimTrailingSpec(s[..|s| - 1]);
    }
  }

  /** String.trim leaves neither end trimmable, and gives the empty string exactly for a string
      of trimmable characters only. */
  lemma {:induction false} TrimSpec(s: string)
    ensures IsTrimmed(Trim(s))
    ensures Trim(s) == [] <==> forall i :: 0 <= i < |s| ==> IsTrimmable(s[i])
  {
    TrimLeadingSpec(s);
    TrimTrailingSpec(TrimLeading(s));
  }

  /** String.trim leaves an already trimmed string as it is. */
  lemma TrimOfTrimmed(t: string)
    requires IsTrimmed(t)
    ensures Trim(t) == t
  {
  }

  /** A trimmable prefix and suffix: String.trim recovers an already trimmed string from its padding. */
  lemma {:induction false} TrimPadded(pre: string, t: string, post: string)
    requires forall i :: 0 <= i < |pre| ==> IsTrimmable(pre[i])
    requires forall i :: 0 <= i < |post| ==> IsTrimmable(post[i])
    requires IsTrimmed(t)
    ensures Trim(pre + t + post) == t
  {
    assert pre + t + post == pre + (t + post);
    LeadingStrip(pre, t + post);
    if t == [] {
      assert t + post == post;
      AllTrimmable(post);
    } else {
      assert (t + post)[0] == t[0];
      TrailingStrip(t, post);
    }
  }

  lemma {:induction false} LeadingStrip(pre: string, rest: string)
    requires forall i :: 0 <= i < |pre| ==> IsTrimmable(pre[i])
    ensures TrimLeading(pre + rest) == TrimLeading(rest)
  {
    if pre != [] {
      assert (pre + rest)[0] == pre[0];
      assert (pre + rest)[1..] == pre[1..] + rest;
      LeadingStrip(pre[1..], rest);
    } else {
      assert pre + rest == rest;
    }
  }

  lemma AllTrimmable(s: string)
    requires forall i :: 0 <= i < |s| ==> IsTrimmable(s[i])
    ensures TrimLeading(s) == []
  {
  }

  lemma {:induction false} TrailingStrip(t: string, post: string)
    requires forall i :: 0 <= i < |post| ==> IsTrimmable(post[i])
    requires IsTrimmed(t)
    ensures TrimTrailing(t + post) == t
    decreases |post|
  {
    if post == [] {
      assert t + post == t;
    } else {
      var shorter := post[..|post| - 1];
      assert (t + post)[..|t + post| - 1] == t + shorter;
      TrailingStrip(t, shorter);
    }
  }

  /** String.length(): supplementary code points take two UTF-16 code units. */
  function Utf16Length(s: string): (n: nat)
    ensures |s| <= n <= 2 * |s|
  {
    if s == [] then 0 else (if s[0] as int > 0xFFFF then 2 else 1) + Utf16Length(s[1..])
  }

  lemma {:induction false} Utf16LengthOfBmp(s: string)
    requires forall i :: 0 <= i < |s| ==> s[i] as int <= 0xFFFF
    ensures Utf16Length(s) == |s|
  {
    if s != [] { Utf16LengthOfBmp(s[1..]); }
  }

  /** The length of getBytes() under UTF-8. */
  function Utf8Length(s: string): (n: nat)
    ensures |s| <= n <= 4 * |s|
  {
    if s == [] then 0
    else
      var c := s[0] as int;
      (if c < 0x80 then 1 else if c < 0x800 then 2 else if c < 0x10000 then 3 else 4) + Utf8Length(s[1..])
  }

  lemma {:induction false} Utf8LengthOfAscii(s: string)
    requires forall i :: 0 <= i < |s| ==> s[i] as int < 0x80
    ensures Utf8Length(s) == |s|
  {
    if s != [] { Utf8LengthOfAscii(s[1..]); }
  }
}
