/** The character classes behind the string checks the core relies on. */
module JavaText {

  /** `Character.isWhitespace`: the characters `String.isBlank` skips. */
  predicate IsJavaWhitespace(c: char) {
    var n := c as int;
    (0x09 <= n <= 0x0D) || (0x1C <= n <= 0x20)
    || n == 0x1680 || (0x2000 <= n <= 0x2006) || (0x2008 <= n <= 0x200A)
    || n == 0x2028 || n == 0x2029 || n == 0x205F || n == 0x3000
  }

  /** `String.isBlank`: empty, or whitespace only. */
  predicate IsBlank(s: string) {
    forall i :: 0 <= i < |s| ==> IsJavaWhitespace(s[i])
  }

  /** `@NotBlank`: not null, and `trim()` (which strips characters up to U+0020) leaves something. */
  predicate IsNotBlankConstraint(s: string) {
    exists i :: 0 <= i < |s| && s[i] > ' '
  }

  /** The regular-expression class `\s`: space, tab, newline, vertical tab, form feed, carriage return. */
  predicate IsRegexSpace(c: char) {
    var n := c as int;
    n == 0x20 || (0x09 <= n <= 0x0D)
  }

  /** `s` matches `\S+` as a whole. */
  predicate MatchesNonSpaceRun(s: string) {
    |s| > 0 && forall i :: 0 <= i < |s| ==> !IsRegexSpace(s[i])
  }
}
