/** The few string operations of Ruby and ActiveSupport that the crawler
    depends on: `blank?`, `downcase`, `start_with?` and the word-character
    class behind the regular-expression anchor `\b`. */
module Text {
  import opened Wrappers

  /** Unicode White_Space, the class `[[:space:]]` matches in Ruby. */
  predicate IsSpace(c: char) {
    || c == ' '
    || '\t' <= c <= '\r'
    || c == '\U{0085}'
    || c == '\U{00A0}'
    || c == '\U{1680}'
    || '\U{2000}' <= c <= '\U{200A}'
    || c == '\U{2028}'
    || c == '\U{2029}'
    || c == '\U{202F}'
    || c == '\U{205F}'
    || c == '\U{3000}'
  }

  /** `String#blank?`: empty or made of white space only. */
  predicate BlankText(s: string) {
    forall i | 0 <= i < |s| :: IsSpace(s[i])
  }

  /** `Object#blank?` on a string that may be `nil`. */
  predicate IsBlank(s: Option<string>) {
    s.None? || BlankText(s.value)
  }

  /** Lower-case mapping of one character, for ASCII and Latin-1. */
  function Lower(c: char): (lower: char) {
    if 'A' <= c <= 'Z' || ('\U{00C0}' <= c <= '\U{00DE}' && c != '\U{00D7}') then
      (c as int + 32) as char
    else
      c
  }

  /** `String#downcase`. */
  function Downcase(s: string): (lowered: string) {
    seq(|s|, i requires 0 <= i < |s| => Lower(s[i]))
  }

  /** Two strings are equal once both are lower-cased, character by character. */
  predicate SameIgnoringCase(a: string, b: string) {
    |a| == |b| && forall i | 0 <= i < |a| :: Lower(a[i]) == Lower(b[i])
  }

  /** A character `\b` treats as part of a word: letters, digits and `_`
      (ASCII and Latin-1). */
  predicate IsWordChar(c: char) {
    || 'a' <= c <= 'z'
    || 'A' <= c <= 'Z'
    || '0' <= c <= '9'
    || c == '_'
    || c == '\U{00AA}' || c == '\U{00B5}' || c == '\U{00BA}'
    || ('\U{00C0}' <= c <= '\U{00FF}' && c != '\U{00D7}' && c != '\U{00F7}')
  }

  /** `String#start_with?` with a literal prefix. */
  predicate StartsWith(s: string, prefix: string) {
    |prefix| <= |s| && s[..|prefix|] == prefix
  }

  /** Titles equal up to case have the same lower-cased form, and only they do. */
  lemma {:induction false} SameIgnoringCaseIffSameDowncase(a: string, b: string)
    ensures SameIgnoringCase(a, b) <==> Downcase(a) == Downcase(b)
  {
    if Downcase(a) == Downcase(b) {
      assert |a| == |Downcase(a)|;
      forall i | 0 <= i < |a|
        ensures Lower(a[i]) == Lower(b[i])
      {
        assert Downcase(a)[i] == Downcase(b)[i];
      }
    }
  }
}
