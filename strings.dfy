/** The few `java.lang.String` operations the services rely on: ASCII case
    mapping, the `trim` test behind `@NotBlank`, and `contains`. */
module Strings {

  /** `@NotBlank` on a non-null string, as Hibernate Validator checks it
      (`trim().length() > 0`): some character lies above U+0020. */
  predicate NotBlank(s: string) {
    exists i :: 0 <= i < |s| && s[i] > ' '
  }

  function UpperChar(c: char): char {
    if 'a' <= c <= 'z' then (c as int - 32) as char else c
  }

  function LowerChar(c: char): char {
    if 'A' <= c <= 'Z' then (c as int + 32) as char else c
  }

  /** `String.toUpperCase` on the ASCII letters. */
  function ToUpper(s: string): string {
    seq(|s|, i requires 0 <= i < |s| => UpperChar(s[i]))
  }

  /** `String.toLowerCase` (SQL `LOWER`) on the ASCII letters. */
  function ToLower(s: string): string {
    seq(|s|, i requires 0 <= i < |s| => LowerChar(s[i]))
  }

  /** Upper-casing is idempotent, so a name already in upper case parses unchanged. */
  lemma ToUpperIdempotent(s: string)
    ensures ToUpper(ToUpper(s)) == ToUpper(s)
  {
  }

  /** Mapping case first to lower and then to upper gives the upper-cased string. */
  lemma UpperOfLower(s: string)
    ensures ToUpper(ToLower(s)) == ToUpper(s)
  {
  }

  /** `t` is a prefix of `s`. */
  predicate IsPrefix(t: string, s: string) {
    |t| <= |s| && s[..|t|] == t
  }

  /** `s.contains(t)`: `t` occurs in `s` at some position. */
  predicate Contains(s: string, t: string)
    decreases |s|
  {
    IsPrefix(t, s) || (s != [] && Contains(s[1..], t))
  }

  /** `Contains` holds exactly when `t` occurs at some offset of `s`. */
  lemma {:induction false} ContainsAt(s: string, t: string)
    ensures Contains(s, t) <==> exists k :: 0 <= k <= |s| && IsPrefix(t, s[k..])
    decreases |s|
  {
    assert s[0..] == s;
    if s != [] {
      ContainsAt(s[1..], t);
      if Contains(s[1..], t) {
        var k :| 0 <= k <= |s[1..]| && IsPrefix(t, s[1..][k..]);
        assert s[1..][k..] == s[k + 1..];
      }
      if k :| 0 <= k <= |s| && IsPrefix(t, s[k..]) {
        if k > 0 {
          assert s[k..] == s[1..][k - 1..];
        }
      }
    }
  }

  /** Case-insensitive `contains`, as SQL `LOWER(name) LIKE LOWER('%term%')` intends. */
  predicate ContainsIgnoreCase(s: string, t: string) {
    Contains(ToLower(s), ToLower(t))
  }
}
