/**
 * `GlobalExceptionHandler.toResponse`: the exception kinds the handler
 * distinguishes, the error body it builds (`ErrorResponse` without its
 * timestamp) and the HTTP status it answers with.
 */
module Exceptions {
  import opened Wrappers

  /** A Bean Validation constraint violation: the property path and the
      constraint's message. */
  datatype Violation = Violation(property: string, message: string)

  /** The exceptions `toResponse` tells apart; `Other` is every other
      exception, with its own (ignored) message. */
  datatype Exception =
    | ConstraintViolation(violations: seq<Violation>)
    | MessageNotFound(messageId: Option<int>)
    | InvalidMessage(message: Option<string>)
    | Other(detail: Option<string>)

  /** `ErrorResponse`: the two-argument constructor leaves `errors` null. */
  datatype ErrorResponse = ErrorResponse(status: int, message: Option<string>, errors: Option<seq<string>>)

  /** The JAX-RS response: its HTTP status and its entity. */
  datatype Response = Response(httpStatus: int, entity: ErrorResponse)

  const BAD_REQUEST: int := 400
  const NOT_FOUND: int := 404
  const INTERNAL_SERVER_ERROR: int := 500

  const VALIDATION_FAILED := "Validation failed"
  const NOT_FOUND_PREFIX := "Message not found with id: "
  const UNEXPECTED_ERROR := "An unexpected error occurred. Please try again later."

  function DigitChar(d: nat): char
    requires d < 10
  {
    ('0' as int + d) as char
  }

  function DigitValue(c: char): nat
  {
    if '0' <= c <= '9' then (c as int - '0' as int) else 0
  }

  /** The decimal digits of `n`, most significant first, no leading zero. */
  function NatToString(n: nat): (s: string)
    ensures |s| >= 1
    ensures forall i :: 0 <= i < |s| ==> '0' <= s[i] <= '9'
    ensures s[0] == '0' ==> n == 0
  {
    if n < 10 then [DigitChar(n)] else NatToString(n / 10) + [DigitChar(n % 10)]
  }

  /** The number a string of decimal digits denotes. */
  function DecimalValue(s: string): nat
  {
    if s == [] then 0 else 10 * DecimalValue(s[..|s| - 1]) + DigitValue(s[|s| - 1])
  }

  lemma {:induction false} NatToStringRoundTrip(n: nat)
    ensures DecimalValue(NatToString(n)) == n
  {
    var s := NatToString(n);
    if n >= 10 {
      NatToStringRoundTrip(n / 10);
      assert s[..|s| - 1] == NatToString(n / 10);
      assert DigitValue(s[|s| - 1]) == n % 10;
      assert DecimalValue(s) == 10 * (n / 10) + n % 10;
    } else {
      assert s[..0] == [];
    }
  }

  /** `Long.toString`, with `null` for an absent value, as string
      concatenation renders it. */
  function LongToString(n: Option<int>): (s: string)
    ensures n.None? ==> s == "null"
    ensures n.Some? ==> |s| >= 1 && (s[0] == '-' <==> n.value < 0)
    ensures n.Some? ==> forall i :: (if n.value < 0 then 1 else 0) <= i < |s| ==> '0' <= s[i] <= '9'
  {
    match n
    case None => "null"
    case Some(v) => if v < 0 then "-" + NatToString(-v) else NatToString(v)
  }

  /** Reads back what `LongToString` writes. */
  function ParseLong(s: string): Option<int>
  {
    if s == "null" then None
    else if |s| > 0 && s[0] == '-' then Some(-(DecimalValue(s[1..]) as int))
    else Some(DecimalValue(s))
  }

  lemma ParseNonNegative(v: nat)
    ensures ParseLong(NatToString(v)) == Some(v)
  {
    var s := NatToString(v);
    NatToStringRoundTrip(v);
    assert s != "null" by { assert s[0] != "null"[0]; }
    assert s[0] != '-';
  }

  lemma ParseNegative(v: nat)
    ensures ParseLong("-" + NatToString(v)) == Some(-(v as int))
  {
    var s := "-" + NatToString(v);
    NatToStringRoundTrip(v);
    assert s != "null" by { assert s[0] != "null"[0]; }
    assert s[0] == '-' && s[1..] == NatToString(v);
  }

  lemma LongToStringRoundTrip(n: Option<int>)
    ensures ParseLong(LongToString(n)) == n
  {
    match n
    case None =>
    case Some(v) =>
      if v < 0 {
        ParseNegative(-v);
      } else {
        ParseNonNegative(v);
      }
  }

  /** `ConstraintViolation::getMessage` applied to each violation, in the
      order the violation set is iterated. */
  function Messages(vs: seq<Violation>): (ms: seq<string>)
    ensures |ms| == |vs|
    ensures forall i :: 0 <= i < |vs| ==> ms[i] == vs[i].message
  {
    if vs == [] then [] else [vs[0].message] + Messages(vs[1..])
  }

  /** `toResponse`: the `instanceof` dispatch and its four handlers. */
  function ToResponse(e: Exception): (r: Response)
    ensures r.entity.status == r.httpStatus
    ensures r.httpStatus == NOT_FOUND <==> e.MessageNotFound?
    ensures r.httpStatus == INTERNAL_SERVER_ERROR <==> e.Other?
    ensures r.httpStatus == BAD_REQUEST <==> e.ConstraintViolation? || e.InvalidMessage?
    ensures r.entity.errors.Some? <==> e.ConstraintViolation?
    ensures e.ConstraintViolation? ==>
              r.entity.message == Some(VALIDATION_FAILED)
              && |r.entity.errors.value| == |e.violations|
              && forall i :: 0 <= i < |e.violations| ==> r.entity.errors.value[i] == e.violations[i].message
    ensures e.MessageNotFound? ==> r.entity.message == Some(NOT_FOUND_PREFIX + LongToString(e.messageId))
    ensures e.InvalidMessage? ==> r.entity.message == e.message
    ensures e.Other? ==> r.entity.message == Some(UNEXPECTED_ERROR)
  {
    match e
    case ConstraintViolation(vs) =>
      Response(BAD_REQUEST, ErrorResponse(BAD_REQUEST, Some(VALIDATION_FAILED), Some(Messages(vs))))
    case MessageNotFound(id) =>
      Response(NOT_FOUND, ErrorResponse(NOT_FOUND, Some(NOT_FOUND_PREFIX + LongToString(id)), None))
    case InvalidMessage(m) =>
      Response(BAD_REQUEST, ErrorResponse(BAD_REQUEST, m, None))
    case Other(_) =>
      Response(INTERNAL_SERVER_ERROR, ErrorResponse(INTERNAL_SERVER_ERROR, Some(UNEXPECTED_ERROR), None))
  }

  /** The not-found response names the id it was raised for: two different
      ids never give the same response. */
  lemma NotFoundResponseIdentifiesId(a: Option<int>, b: Option<int>)
    requires ToResponse(MessageNotFound(a)) == ToResponse(MessageNotFound(b))
    ensures a == b
  {
    var ma, mb := NOT_FOUND_PREFIX + LongToString(a), NOT_FOUND_PREFIX + LongToString(b);
    assert ma[|NOT_FOUND_PREFIX|..] == LongToString(a);
    assert mb[|NOT_FOUND_PREFIX|..] == LongToString(b);
    LongToStringRoundTrip(a);
    LongToStringRoundTrip(b);
  }

  /** An unexpected exception's own message never reaches the client. */
  lemma OtherHidesDetail(d1: Option<string>, d2: Option<string>)
    ensures ToResponse(Other(d1)) == ToResponse(Other(d2))
  {
  }
}
