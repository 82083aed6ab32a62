/** Request validation middleware: the upload presence/type check, the route
    parameter checks, and the step that turns collected validation messages into
    one 400 error. */
module Validation {
  import opened Outcomes
  import opened Text
  import opened Upload

  /** `validateFileUpload`: a file must be present and declared as a PDF. */
  function ValidateFileUpload(file: Option<UploadedFile>): (r: Outcome)
    ensures r == Pass <==> file.Some? && file.value.mimetype == PdfMimeType
    ensures file.None? ==> r == Fail(CustomError("No file uploaded", 400))
    ensures file.Some? && r != Pass ==> r == Fail(CustomError("Only PDF files are allowed", 400))
  {
    if file.None? then Fail(CustomError("No file uploaded", 400))
    else if file.value.mimetype != PdfMimeType then Fail(CustomError("Only PDF files are allowed", 400))
    else Pass
  }

  /** `handleValidationErrors`: no messages lets the request through; otherwise one
      400 error whose message is every message, in order, separated by ", ". */
  function HandleValidationErrors(messages: seq<string>): (r: Outcome)
    ensures r == Pass <==> messages == []
    ensures messages != [] ==> r == Fail(CustomError(Join(messages, ", "), 400))
  {
    if messages == [] then Pass else Fail(CustomError(Join(messages, ", "), 400))
  }

  /** The error message for two batches of messages is the message of the first
      batch, ", ", then the message of the second: order is preserved. */
  lemma HandleValidationErrorsKeepsOrder(xs: seq<string>, ys: seq<string>)
    requires xs != [] && ys != []
    ensures HandleValidationErrors(xs + ys).error.message
         == HandleValidationErrors(xs).error.message + ", " + HandleValidationErrors(ys).error.message
  {
    JoinAppend(xs, ys, ", ");
  }

  const DocumentIdRequired: string := "Document ID is required"
  const TotalPagesMustBePositive: string := "Total pages must be a positive integer"

  /** The messages `validateDocumentId` records: the trimmed id must not be empty. */
  function DocumentIdErrors(id: string): (msgs: seq<string>)
    ensures msgs == [] <==> !Blank(id)
    ensures msgs != [] ==> msgs == [DocumentIdRequired]
  {
    TrimEmptyIffBlank(id);
    if Trim(id) == "" then [DocumentIdRequired] else []
  }

  /** A route guarded by `validateDocumentId, handleValidationErrors` rejects exactly
      the ids made only of whitespace, with 400 "Document ID is required". */
  lemma DocumentIdGate(id: string)
    ensures HandleValidationErrors(DocumentIdErrors(id)) == Pass <==> !Blank(id)
    ensures Blank(id) ==> HandleValidationErrors(DocumentIdErrors(id)) == Fail(CustomError(DocumentIdRequired, 400))
  {
  }

  predicate AllDigits(s: string) {
    forall i :: 0 <= i < |s| ==> IsDigit(s[i])
  }

  /** Integer text as the validator's `isInt` reads it: an optional sign, then one or
      more decimal digits (leading zeros allowed). */
  predicate IsIntText(s: string) {
    if |s| > 0 && (s[0] == '+' || s[0] == '-') then |s| >= 2 && AllDigits(s[1..])
    else |s| >= 1 && AllDigits(s)
  }

  function IntTextValue(s: string): int
    requires IsIntText(s)
  {
    if s[0] == '-' then -(DigitsValue(s[1..]) as int)
    else if s[0] == '+' then DigitsValue(s[1..])
    else DigitsValue(s)
  }

  /** The messages `validateTotalPages` records: an absent query value is accepted;
      a present one, trimmed, must be integer text denoting at least 1. */
  function TotalPagesErrors(totalPages: Option<string>): (msgs: seq<string>)
    ensures msgs == [] || msgs == [TotalPagesMustBePositive]
    ensures totalPages.None? ==> msgs == []
    ensures totalPages.Some? ==>
      (msgs == [] <==> IsIntText(Trim(totalPages.value)) && IntTextValue(Trim(totalPages.value)) >= 1)
  {
    if totalPages.None? then []
    else
      var t := Trim(totalPages.value);
      if IsIntText(t) && IntTextValue(t) >= 1 then [] else [TotalPagesMustBePositive]
  }

  /** Every positive count, written in decimal, is an accepted `totalPages`. */
  lemma TotalPagesAcceptsPositive(n: nat)
    requires n >= 1
    ensures TotalPagesErrors(Some(NatToString(n))) == []
  {
    var s := NatToString(n);
    assert IsDigit(s[0]) && IsDigit(s[|s| - 1]);
    TrimsToItself(s);
    assert AllDigits(s) && IsIntText(s);
    NatToStringRoundTrip(n);
  }

  /** A count written in decimal is accepted exactly when it is at least 1. */
  lemma TotalPagesDecimalIff(n: nat)
    ensures TotalPagesErrors(Some(NatToString(n))) == [] <==> n >= 1
  {
    if n >= 1 {
      TotalPagesAcceptsPositive(n);
    } else {
      assert NatToString(n) == "0";
      TotalPagesRefusesZero();
    }
  }

  /** Zero pages is refused. */
  lemma TotalPagesRefusesZero()
    ensures TotalPagesErrors(Some("0")) == [TotalPagesMustBePositive]
  {
    var z := "0";
    TrimsToItself(z);
    assert z[..0] == "";
    assert DigitsValue(z) == 0;
  }

  /** A value made of whitespace is refused. */
  lemma TotalPagesRefusesBlank()
    ensures TotalPagesErrors(Some(" ")) == [TotalPagesMustBePositive]
  {
    TrimEmptyIffBlank(" ");
  }
}
