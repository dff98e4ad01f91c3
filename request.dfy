/**
 * `SmsRequest`: the body of a send request, a bean with three nullable
 * string fields, and the Bean Validation constraints declared on them,
 * turned into the explicit function `Validate`.
 */
module Requests {
  import opened Wrappers
  import opened Text
  import opened Exceptions
  import PhoneValidation

  const SOURCE_REQUIRED := "Source number is required"
  const DESTINATION_REQUIRED := "Destination number is required"
  const CONTENT_REQUIRED := "Message content is required"
  const CONTENT_TOO_LONG := "Message content cannot exceed 160 characters"

  /** `@Size(max = 160)` on the content. */
  const MAX_CONTENT_LENGTH: nat := 160

  const SOURCE_REQUIRED_VIOLATION := Violation("sourceNumber", SOURCE_REQUIRED)
  const DESTINATION_REQUIRED_VIOLATION := Violation("destinationNumber", DESTINATION_REQUIRED)
  const CONTENT_REQUIRED_VIOLATION := Violation("content", CONTENT_REQUIRED)
  const CONTENT_TOO_LONG_VIOLATION := Violation("content", CONTENT_TOO_LONG)

  /** `@NotBlank`: not null, and something is left after `trim()`, that
      is, some character lies above U+0020. */
  predicate NotBlank(s: Option<string>)
    ensures NotBlank(s) <==> s.Some? && HasNonTrimmable(s.value)
  {
    s.Some? && |Trim(s.value)| > 0
  }

  /** `@Size(max = m)`: null passes; otherwise `length()` is at most `m`.
      A string within the limit has at most `m` characters, and for text
      inside the Basic Multilingual Plane the two counts agree. */
  predicate SizeAtMost(s: Option<string>, m: nat)
    ensures s.None? ==> SizeAtMost(s, m)
    ensures SizeAtMost(s, m) ==> s.None? || |s.value| <= m
    ensures s.Some? && (forall i :: 0 <= i < |s.value| ==> s.value[i] as int < 0x10000) ==>
              (SizeAtMost(s, m) <==> |s.value| <= m)
  {
    s.None? || Utf16Length(s.value) <= m
  }

  /** The violations Bean Validation reports for a request with these
      three field values (a set: the order is not specified). */
  function Validate(source: Option<string>, destination: Option<string>, content: Option<string>): (vs: set<Violation>)
    ensures SOURCE_REQUIRED_VIOLATION in vs <==> !NotBlank(source)
    ensures DESTINATION_REQUIRED_VIOLATION in vs <==> !NotBlank(destination)
    ensures CONTENT_REQUIRED_VIOLATION in vs <==> !NotBlank(content)
    ensures CONTENT_TOO_LONG_VIOLATION in vs <==> content.Some? && Utf16Length(content.value) > MAX_CONTENT_LENGTH
    ensures vs <= ALL_VIOLATIONS
  {
    Reported(!NotBlank(source), !NotBlank(destination), !NotBlank(content), !SizeAtMost(content, MAX_CONTENT_LENGTH))
  }

  /** The violations of the four constraints, given which of them fail. */
  function Reported(sourceMissing: bool, destinationMissing: bool, contentMissing: bool, contentTooLong: bool)
    : (vs: set<Violation>)
    ensures SOURCE_REQUIRED_VIOLATION in vs <==> sourceMissing
    ensures DESTINATION_REQUIRED_VIOLATION in vs <==> destinationMissing
    ensures CONTENT_REQUIRED_VIOLATION in vs <==> contentMissing
    ensures CONTENT_TOO_LONG_VIOLATION in vs <==> contentTooLong
    ensures vs <= ALL_VIOLATIONS
  {
    ViolationsDistinct();
    (if sourceMissing then {SOURCE_REQUIRED_VIOLATION} else {})
    + (if destinationMissing then {DESTINATION_REQUIRED_VIOLATION} else {})
    + (if contentMissing then {CONTENT_REQUIRED_VIOLATION} else {})
    + (if contentTooLong then {CONTENT_TOO_LONG_VIOLATION} else {})
  }

  /** A request passes validation exactly when all three fields are
      non-blank and the content fits in 160 UTF-16 units. */
  lemma {:induction false} ValidIffWellFormed(source: Option<string>, destination: Option<string>, content: Option<string>)
    ensures Validate(source, destination, content) == {} <==>
            NotBlank(source) && NotBlank(destination) && NotBlank(content)
            && Utf16Length(content.value) <= MAX_CONTENT_LENGTH
  {
    var vs := Validate(source, destination, content);
    if !NotBlank(source) { assert SOURCE_REQUIRED_VIOLATION in vs; }
    if !NotBlank(destination) { assert DESTINATION_REQUIRED_VIOLATION in vs; }
    if !NotBlank(content) { assert CONTENT_REQUIRED_VIOLATION in vs; }
    else if Utf16Length(content.value) > MAX_CONTENT_LENGTH { assert CONTENT_TOO_LONG_VIOLATION in vs; }
  }

  /** A null content is reported as missing, never as too long. */
  lemma NullContentIsOnlyMissing(source: Option<string>, destination: Option<string>)
    ensures CONTENT_REQUIRED_VIOLATION in Validate(source, destination, None)
    ensures CONTENT_TOO_LONG_VIOLATION !in Validate(source, destination, None)
  {
  }

  /** The phone-number format is not checked: no `@ValidPhoneNumber` is
      applied, so "abc", which the phone validator rejects, is an
      acceptable source and destination. */
  lemma PhoneFormatNotChecked()
    ensures !PhoneValidation.IsValid(Some("abc"))
    ensures Validate(Some("abc"), Some("abc"), Some("hello")) == {}
  {
    PhoneValidation.DocumentedInvalidExamples();
    assert HasNonTrimmable("abc") by { assert "abc"[0] as int > 0x20; }
    assert HasNonTrimmable("hello") by { assert "hello"[0] as int > 0x20; }
    ValidIffWellFormed(Some("abc"), Some("abc"), Some("hello"));
  }

  /** Content of all spaces that is also too long gets both content errors. */
  lemma BlankAndLongContentGetsBothErrors(content: string)
    requires |content| == MAX_CONTENT_LENGTH + 1
    requires forall i :: 0 <= i < |content| ==> content[i] == ' '
    ensures {CONTENT_REQUIRED_VIOLATION, CONTENT_TOO_LONG_VIOLATION} <= Validate(Some("a"), Some("b"), Some(content))
  {
  }

  /** A rejected request, its violations listed in any order (a violation
      set is iterated without repetition), is answered 400 "Validation
      failed" with exactly one error per violated constraint: every
      violated constraint's message is listed, every listed error is the
      message of a violated constraint, and no error is listed twice. */
  lemma RejectedRequestAnswer(source: Option<string>, destination: Option<string>, content: Option<string>,
                              vs: seq<Violation>)
    requires forall v :: v in vs <==> v in Validate(source, destination, content)
    requires forall i, j :: 0 <= i < j < |vs| ==> vs[i] != vs[j]
    ensures ToResponse(ConstraintViolation(vs)).httpStatus == BAD_REQUEST
    ensures ToResponse(ConstraintViolation(vs)).entity.message == Some(VALIDATION_FAILED)
    ensures forall v :: v in Validate(source, destination, content) ==>
              v.message in ToResponse(ConstraintViolation(vs)).entity.errors.value
    ensures forall e :: e in ToResponse(ConstraintViolation(vs)).entity.errors.value ==>
              exists v :: v in Validate(source, destination, content) && v.message == e
    ensures var errors := ToResponse(ConstraintViolation(vs)).entity.errors.value;
            forall i, j :: 0 <= i < j < |errors| ==> errors[i] != errors[j]
  {
    var errors := ToResponse(ConstraintViolation(vs)).entity.errors.value;
    ErrorsListViolations(Validate(source, destination, content), vs, errors);
  }

  /** Errors read off, one per position, from reported violations listed
      without repetition name every reported violation, only reported
      ones, and none twice. */
  lemma ErrorsListViolations(reported: set<Violation>, vs: seq<Violation>, errors: seq<string>)
    requires reported <= ALL_VIOLATIONS
    requires forall v :: v in vs <==> v in reported
    requires forall i, j :: 0 <= i < j < |vs| ==> vs[i] != vs[j]
    requires |errors| == |vs| && forall i :: 0 <= i < |vs| ==> errors[i] == vs[i].message
    ensures forall v :: v in reported ==> v.message in errors
    ensures forall e :: e in errors ==> exists v :: v in reported && v.message == e
    ensures forall i, j :: 0 <= i < j < |errors| ==> errors[i] != errors[j]
  {
    forall v | v in reported ensures v.message in errors {
      var i :| 0 <= i < |vs| && vs[i] == v;
      assert errors[i] == v.message;
    }
    forall e | e in errors ensures exists v :: v in reported && v.message == e {
      var i :| 0 <= i < |errors| && errors[i] == e;
      assert vs[i] in reported && vs[i].message == e;
    }
    DistinctViolationsHaveDistinctMessages(reported, vs);
  }

  /** Every violation the request constraints can report. */
  const ALL_VIOLATIONS: set<Violation> :=
    {SOURCE_REQUIRED_VIOLATION, DESTINATION_REQUIRED_VIOLATION, CONTENT_REQUIRED_VIOLATION, CONTENT_TOO_LONG_VIOLATION}

  /** The four violations are four different values. */
  lemma ViolationsDistinct()
    ensures SOURCE_REQUIRED_VIOLATION != DESTINATION_REQUIRED_VIOLATION
    ensures SOURCE_REQUIRED_VIOLATION != CONTENT_REQUIRED_VIOLATION
    ensures SOURCE_REQUIRED_VIOLATION != CONTENT_TOO_LONG_VIOLATION
    ensures DESTINATION_REQUIRED_VIOLATION != CONTENT_REQUIRED_VIOLATION
    ensures DESTINATION_REQUIRED_VIOLATION != CONTENT_TOO_LONG_VIOLATION
    ensures CONTENT_REQUIRED_VIOLATION != CONTENT_TOO_LONG_VIOLATION
  {
    assert SOURCE_REQUIRED[0] != DESTINATION_REQUIRED[0] && SOURCE_REQUIRED[0] != CONTENT_REQUIRED[0];
    assert DESTINATION_REQUIRED[0] != CONTENT_REQUIRED[0];
    assert CONTENT_REQUIRED[16] != CONTENT_TOO_LONG[16];
  }

  /** The four constraints have four different messages. */
  lemma MessageIdentifiesViolation(a: Violation, b: Violation)
    requires a in ALL_VIOLATIONS && b in ALL_VIOLATIONS
    requires a.message == b.message
    ensures a == b
  {
    assert SOURCE_REQUIRED[0] != DESTINATION_REQUIRED[0] && SOURCE_REQUIRED[0] != CONTENT_REQUIRED[0];
    assert DESTINATION_REQUIRED[0] != CONTENT_REQUIRED[0];
    assert CONTENT_REQUIRED[16] != CONTENT_TOO_LONG[16];
  }

  /** Listing reported violations without repetition lists no message twice. */
  lemma DistinctViolationsHaveDistinctMessages(reported: set<Violation>, vs: seq<Violation>)
    requires reported <= ALL_VIOLATIONS
    requires forall v :: v in vs ==> v in reported
    requires forall i, j :: 0 <= i < j < |vs| ==> vs[i] != vs[j]
    ensures forall i, j :: 0 <= i < j < |vs| ==> vs[i].message != vs[j].message
  {
    forall i, j | 0 <= i < j < |vs| ensures vs[i].message != vs[j].message {
      if vs[i].message == vs[j].message {
        assert vs[i] in vs && vs[j] in vs;
        MessageIdentifiesViolation(vs[i], vs[j]);
      }
    }
  }

  /** The request bean. */
  class SmsRequest {
    var sourceNumber: Option<string>
    var destinationNumber: Option<string>
    var content: Option<string>

    /** The no-argument constructor used for JSON deserialisation. */
    constructor Empty()
      ensures GetSourceNumber() == None && GetDestinationNumber() == None && GetContent() == None
    {
      sourceNumber, destinationNumber, content := None, None, None;
    }

    /** `new SmsRequest(source, destination, content)`. */
    constructor (source: Option<string>, destination: Option<string>, content: Option<string>)
      ensures GetSourceNumber() == source && GetDestinationNumber() == destination && GetContent() == content
    {
      this.sourceNumber, this.destinationNumber, this.content := source, destination, content;
    }

    function GetSourceNumber(): Option<string>
      reads this
    {
      sourceNumber
    }

    function GetDestinationNumber(): Option<string>
      reads this
    {
      destinationNumber
    }

    function GetContent(): Option<string>
      reads this
    {
      content
    }

    method SetSourceNumber(v: Option<string>)
      modifies this
      ensures GetSourceNumber() == v
      ensures GetDestinationNumber() == old(GetDestinationNumber()) && GetContent() == old(GetContent())
    {
      sourceNumber := v;
    }

    method SetDestinationNumber(v: Option<string>)
      modifies this
      ensures GetDestinationNumber() == v
      ensures GetSourceNumber() == old(GetSourceNumber()) && GetContent() == old(GetContent())
    {
      destinationNumber := v;
    }

    method SetContent(v: Option<string>)
      modifies this
      ensures GetContent() == v
      ensures GetSourceNumber() == old(GetSourceNumber()) && GetDestinationNumber() == old(GetDestinationNumber())
    {
      content := v;
    }
  }
}
