/**
 * `PhoneNumberValidator.isValid`: a blank check followed by a full match
 * of the pattern `^\+?[1-9]\d{6,14}$`.
 *
 * The pattern is kept as data (a sequence of repeated character classes)
 * and run by a small backtracking matcher, `Matches`; the lemma
 * `PatternMatchesIffE164Shape` then says in plain terms which strings the
 * pattern accepts: an optional '+', then 7 to 15 ASCII digits of which the
 * first is not '0' (the 15-digit maximum of ITU-T Recommendation E.164).
 */
module PhoneValidation {
  import opened Wrappers
  import opened Text

  /** A regular-expression character class: one literal, or a range. */
  datatype CharClass = Literal(c: char) | Range(lo: char, hi: char)

  predicate InClass(k: CharClass, c: char)
  {
    match k
    case Literal(x) => c == x
    case Range(lo, hi) => lo <= c <= hi
  }

  predicate AllIn(k: CharClass, s: string)
  {
    forall i :: 0 <= i < |s| ==> InClass(k, s[i])
  }

  /** `cls{min,max}`: between `min` and `max` characters of one class. */
  datatype Atom = Atom(cls: CharClass, min: nat, max: nat)

  /** A pattern anchored at both ends (`^ ... $` used with `matches()`). */
  type Pattern = seq<Atom>

  /** `\+?` then `[1-9]` then `\d{6,14}`; `\d` is ASCII 0-9 only, since
      the pattern is compiled without UNICODE_CHARACTER_CLASS. */
  const PHONE_PATTERN: Pattern :=
    [Atom(Literal('+'), 0, 1), Atom(Range('1', '9'), 1, 1), Atom(Range('0', '9'), 6, 14)]

  /** Does the whole of `s` match `p`? */
  function Matches(p: Pattern, s: string): bool
    decreases |p|, 1, 0
  {
    if p == [] then s == [] else MatchesFrom(p[0], p[1..], s, 0)
  }

  /** Backtracking over the repetition count of `a`: try `k`, `k + 1`, ...
      characters for `a`, and the rest of the pattern on what is left. */
  function MatchesFrom(a: Atom, rest: Pattern, s: string, k: nat): bool
    decreases |rest| + 1, 0, if k <= a.max then a.max + 1 - k else 0
  {
    if k > a.max || k > |s| then false
    else (a.min <= k && AllIn(a.cls, s[..k]) && Matches(rest, s[k..])) || MatchesFrom(a, rest, s, k + 1)
  }

  /** The backtracking search finds a split exactly when one exists. */
  lemma {:induction false} MatchesFromIff(a: Atom, rest: Pattern, s: string, k: nat)
    ensures MatchesFrom(a, rest, s, k) <==>
            exists j :: k <= j <= a.max && j <= |s| && a.min <= j && AllIn(a.cls, s[..j]) && Matches(rest, s[j..])
    decreases if k <= a.max then a.max + 1 - k else 0
  {
    if k <= a.max && k <= |s| {
      MatchesFromIff(a, rest, s, k + 1);
    }
  }

  predicate IsAsciiDigit(c: char)
  {
    '0' <= c <= '9'
  }

  /** The string with a leading '+' removed, if there is one. */
  function DigitsPart(s: string): (d: string)
    ensures |d| <= |s|
  {
    if |s| > 0 && s[0] == '+' then s[1..] else s
  }

  /** Optional '+', then 7 to 15 ASCII digits, the first of them 1-9. */
  predicate E164Shape(s: string)
  {
    var d := DigitsPart(s);
    7 <= |d| <= 15 && '1' <= d[0] <= '9' && forall i :: 0 <= i < |d| ==> IsAsciiDigit(d[i])
  }

  lemma LastAtom(u: string)
    ensures Matches(PHONE_PATTERN[2..], u) <==> 6 <= |u| <= 14 && AllIn(Range('0', '9'), u)
  {
    var a := PHONE_PATTERN[2];
    assert PHONE_PATTERN[2..] == [a] && [a][1..] == [];
    assert Matches(PHONE_PATTERN[2..], u) == MatchesFrom(a, [], u, 0);
    MatchesFromIff(a, [], u, 0);
    if 6 <= |u| <= 14 && AllIn(Range('0', '9'), u) {
      var j := |u|;
      assert u[..j] == u && u[j..] == [];
      assert 0 <= j <= a.max && j <= |u| && a.min <= j && AllIn(a.cls, u[..j]) && Matches([], u[j..]);
    }
    if Matches(PHONE_PATTERN[2..], u) {
      var j :| 0 <= j <= a.max && j <= |u| && a.min <= j && AllIn(a.cls, u[..j]) && Matches([], u[j..]);
      assert j == |u|;
      assert u[..j] == u;
    }
  }

  lemma MiddleAtom(t: string)
    ensures Matches(PHONE_PATTERN[1..], t) <==>
            |t| >= 1 && '1' <= t[0] <= '9' && 6 <= |t| - 1 <= 14 && AllIn(Range('0', '9'), t[1..])
  {
    var a := PHONE_PATTERN[1];
    assert PHONE_PATTERN[1..][1..] == PHONE_PATTERN[2..];
    MatchesFromIff(a, PHONE_PATTERN[2..], t, 0);
    if |t| >= 1 {
      LastAtom(t[1..]);
      assert t[..1] == [t[0]];
    }
  }

  /** The leading `\+?`: either no character or a single '+'. */
  lemma OptionalPlus(s: string)
    ensures Matches(PHONE_PATTERN, s) <==>
            Matches(PHONE_PATTERN[1..], s) || (|s| >= 1 && s[0] == '+' && Matches(PHONE_PATTERN[1..], s[1..]))
  {
    var a, rest := PHONE_PATTERN[0], PHONE_PATTERN[1..];
    assert Matches(PHONE_PATTERN, s) == MatchesFrom(a, rest, s, 0);
    MatchesFromIff(a, rest, s, 0);
    if Matches(rest, s) {
      assert s[..0] == [] && s[0..] == s;
      assert 0 <= a.max && a.min <= 0 && AllIn(a.cls, s[..0]) && Matches(rest, s[0..]);
    }
    if |s| >= 1 && s[0] == '+' && Matches(rest, s[1..]) {
      assert s[..1] == [s[0]];
      assert 1 <= a.max && 1 <= |s| && a.min <= 1 && AllIn(a.cls, s[..1]) && Matches(rest, s[1..]);
    }
    if Matches(PHONE_PATTERN, s) {
      var j :| 0 <= j <= a.max && j <= |s| && a.min <= j && AllIn(a.cls, s[..j]) && Matches(rest, s[j..]);
      if j == 0 {
        assert s[0..] == s;
      } else {
        assert s[..j][0] == s[0];
      }
    }
  }

  /** The digits after the optional '+': 7 to 15 ASCII digits, the first 1-9. */
  predicate SignificantDigits(d: string)
  {
    7 <= |d| <= 15 && '1' <= d[0] <= '9' && forall i :: 0 <= i < |d| ==> IsAsciiDigit(d[i])
  }

  lemma DigitsAfterPlus(t: string)
    ensures Matches(PHONE_PATTERN[1..], t) <==> SignificantDigits(t)
  {
    MiddleAtom(t);
    if |t| >= 1 {
      assert forall i :: 0 <= i < |t[1..]| ==> t[1..][i] == t[i + 1];
    }
  }

  /** The pattern accepts exactly the strings of E.164 shape. */
  lemma PatternMatchesIffE164Shape(s: string)
    ensures Matches(PHONE_PATTERN, s) <==> E164Shape(s)
  {
    OptionalPlus(s);
    DigitsAfterPlus(s);
    assert E164Shape(s) <==> SignificantDigits(DigitsPart(s));
    if |s| >= 1 && s[0] == '+' {
      DigitsAfterPlus(s[1..]);
      assert !SignificantDigits(s);
    }
  }

  /** `PhoneNumberValidator.isValid(phoneNumber, context)`; the context is
      not consulted and `initialize` keeps no state, so the answer depends
      on the string alone. */
  predicate IsValid(phoneNumber: Option<string>)
    ensures IsValid(phoneNumber) <==>
            phoneNumber.None? || IsBlank(phoneNumber.value) || E164Shape(phoneNumber.value)
  {
    match phoneNumber
    case None => true
    case Some(s) => PatternMatchesIffE164Shape(s); IsBlank(s) || Matches(PHONE_PATTERN, s)
  }

  /** Null and blank input is left to `@NotBlank` and reported valid. */
  lemma NullOrBlankIsValid(s: string)
    requires IsBlank(s)
    ensures IsValid(None) && IsValid(Some(s))
  {
  }

  /** Non-blank input is valid exactly when it has the E.164 shape. */
  lemma ValidIffE164Shape(s: string)
    requires !IsBlank(s)
    ensures IsValid(Some(s)) <==> E164Shape(s)
  {
    PatternMatchesIffE164Shape(s);
  }

  /** How many ASCII digits `s` holds. */
  function CountDigits(s: string): (n: nat)
    ensures n <= |s|
  {
    if s == [] then 0 else (if IsAsciiDigit(s[0]) then 1 else 0) + CountDigits(s[1..])
  }

  lemma {:induction false} CountDigitsOfDigits(s: string)
    requires forall i :: 0 <= i < |s| ==> IsAsciiDigit(s[i])
    ensures CountDigits(s) == |s|
  {
    if s != [] {
      CountDigitsOfDigits(s[1..]);
    }
  }

  /** Every accepted non-blank number holds between 7 and 15 digits. */
  lemma AcceptedHasSevenToFifteenDigits(s: string)
    requires !IsBlank(s) && IsValid(Some(s))
    ensures 7 <= CountDigits(s) <= 15
  {
    PatternMatchesIffE164Shape(s);
    var d := DigitsPart(s);
    CountDigitsOfDigits(d);
    if |s| > 0 && s[0] == '+' {
      assert CountDigits(s) == CountDigits(d);
    }
  }

  /** A leading '0' (after the optional '+') is rejected. */
  lemma LeadingZeroRejected(s: string)
    requires |s| > 0 && DigitsPart(s) != [] && DigitsPart(s)[0] == '0'
    ensures !IsValid(Some(s))
  {
    assert !IsJavaWhitespace(s[0]);
    PatternMatchesIffE164Shape(s);
  }

  /** A space, a dash, or a '+' anywhere but first, in a non-blank string,
      is rejected. */
  lemma SeparatorRejected(s: string, i: nat)
    requires !IsBlank(s)
    requires i < |s| && (s[i] == ' ' || s[i] == '-' || (i > 0 && s[i] == '+'))
    ensures !IsValid(Some(s))
  {
    PatternMatchesIffE164Shape(s);
    var d := DigitsPart(s);
    var offset := if s[0] == '+' then 1 else 0;
    assert offset <= i && d[i - offset] == s[i];
    assert !IsAsciiDigit(d[i - offset]);
  }

  /** A string of E.164 shape is accepted (it is not blank: its first
      character is '+' or a digit). */
  lemma E164ShapeIsValid(s: string)
    requires E164Shape(s)
    ensures IsValid(Some(s))
  {
    assert !IsJavaWhitespace(s[0]);
    ValidIffE164Shape(s);
  }

  /** The accepted examples documented with `@ValidPhoneNumber`. */
  lemma DocumentedValidExamples()
    ensures IsValid(Some("+306912345678"))
    ensures IsValid(Some("306912345678"))
    ensures IsValid(Some("+1234567890"))
  {
    var a, b, c := "+306912345678", "306912345678", "+1234567890";
    assert E164Shape(a) by {
      assert DigitsPart(a) == b;
    }
    assert E164Shape(b);
    assert E164Shape(c) by {
      assert DigitsPart(c) == c[1..];
    }
    E164ShapeIsValid(a);
    E164ShapeIsValid(b);
    E164ShapeIsValid(c);
  }

  /** The rejected examples documented with `@ValidPhoneNumber`. */
  lemma DocumentedInvalidExamples()
    ensures !IsValid(Some("abc"))
    ensures !IsValid(Some("123"))
    ensures !IsValid(Some("+30-691-234-5678"))
  {
    var a, b, c := "abc", "123", "+30-691-234-5678";
    assert !IsJavaWhitespace(a[0]) && !IsJavaWhitespace(b[0]) && !IsJavaWhitespace(c[0]);
    assert !E164Shape(a) by { assert DigitsPart(a) == a && !('1' <= a[0] <= '9'); }
    assert !E164Shape(b) by { assert DigitsPart(b) == b && |b| < 7; }
    ValidIffE164Shape(a);
    ValidIffE164Shape(b);
    SeparatorRejected(c, 3);
  }
}
