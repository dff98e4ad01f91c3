/**
 * The pieces of Java's string semantics the model depends on: what counts
 * as whitespace for `String.isBlank()` and for Bean Validation's
 * `@NotBlank`, and `String.length()`, which counts UTF-16 code units.
 */
module Text {

  /** `Character.isWhitespace(c)`: the Unicode space, line and paragraph
      separators other than the three no-break spaces (U+00A0, U+2007,
      U+202F), plus U+0009..U+000D and U+001C..U+001F. */
  predicate IsJavaWhitespace(c: char)
  {
    (9 <= c as int <= 13) || (0x1C <= c as int <= 0x20)
    || c as int == 0x1680 || (0x2000 <= c as int <= 0x2006) || (0x2008 <= c as int <= 0x200A)
    || c as int == 0x2028 || c as int == 0x2029 || c as int == 0x205F || c as int == 0x3000
  }

  /** `String.isBlank()`: empty, or whitespace code points only.  On ASCII
      text it is stricter than the `trim()` test: a string it calls blank
      keeps nothing after `trim()`. */
  predicate IsBlank(s: string)
    ensures s == [] ==> IsBlank(s)
    ensures IsBlank(s) && (forall i :: 0 <= i < |s| ==> s[i] as int < 0x80) ==> !HasNonTrimmable(s)
  {
    forall i :: 0 <= i < |s| ==> IsJavaWhitespace(s[i])
  }

  /** Some character of `s` lies above U+0020, so `trim()` keeps it. */
  predicate HasNonTrimmable(s: string)
  {
    exists i :: 0 <= i < |s| && s[i] as int > 0x20
  }

  /** `String.trim()`: every leading and trailing character up to U+0020
      removed.  What is left is empty exactly when no character lies above
      U+0020, and otherwise starts and ends with such a character. */
  function Trim(s: string): (t: string)
    ensures |t| <= |s|
    ensures t == [] <==> !HasNonTrimmable(s)
    ensures t != [] ==> t[0] as int > 0x20 && t[|t| - 1] as int > 0x20
    decreases |s|
  {
    if s == [] then []
    else if s[0] as int <= 0x20 then
      assert HasNonTrimmable(s) <==> HasNonTrimmable(s[1..]) by {
        if HasNonTrimmable(s) {
          var i :| 0 <= i < |s| && s[i] as int > 0x20;
          assert s[1..][i - 1] == s[i];
        }
      }
      Trim(s[1..])
    else if s[|s| - 1] as int <= 0x20 then
      assert HasNonTrimmable(s) <==> HasNonTrimmable(s[..|s| - 1]) by {
        if HasNonTrimmable(s) {
          var i :| 0 <= i < |s| && s[i] as int > 0x20;
          assert s[..|s| - 1][i] == s[i];
        }
      }
      Trim(s[..|s| - 1])
    else
      assert s[0] as int > 0x20;
      s
  }

  /** `isBlank()` and the `trim()` test disagree outside ASCII and on
      control characters: an ideographic space (U+3000) is blank yet
      survives `trim()`, and U+0001 is not blank yet is trimmed away. */
  lemma BlankRulesDisagree()
    ensures IsBlank([0x3000 as char]) && Trim([0x3000 as char]) != []
    ensures !IsBlank([0x01 as char]) && Trim([0x01 as char]) == []
  {
    assert HasNonTrimmable([0x3000 as char]) by { assert [0x3000 as char][0] as int > 0x20; }
    var c := [0x01 as char];
    assert !IsJavaWhitespace(c[0]);
    assert !HasNonTrimmable(c) by {
      forall i | 0 <= i < |c| ensures c[i] as int <= 0x20 {
        assert i == 0;
      }
    }
  }

  /** `String.length()`: a character outside the Basic Multilingual Plane
      takes two UTF-16 code units. */
  function Utf16Length(s: string): (n: nat)
    ensures |s| <= n <= 2 * |s|
    ensures (forall i :: 0 <= i < |s| ==> s[i] as int < 0x10000) ==> n == |s|
  {
    if s == [] then 0
    else (if s[0] as int < 0x10000 then 1 else 2) + Utf16Length(s[1..])
  }
}
