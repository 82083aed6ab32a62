/** The global error handler: every failure that reaches it becomes one JSON response
    `{error: message}` with a status. Application errors keep their own status and
    message; upload-parser errors answer 400; everything else answers 500 with a
    fixed message, so storage and schema failures never leak their details. */
module ErrorHandler {
  import opened Outcomes
  import opened Text
  import opened Upload

  /** `res.status(status).json({error})`. */
  datatype ErrorResponse = ErrorResponse(status: int, error: string)

  /** The size limit in the message is computed from `MAX_FILE_SIZE` in MiB. */
  const FileTooLarge: string :=
    "File size too large. Maximum size is " + NatToString(MAX_FILE_SIZE / (1024 * 1024)) + "MB"

  lemma FileTooLargeText()
    ensures FileTooLarge == "File size too large. Maximum size is 100MB"
  {
    assert MAX_FILE_SIZE / (1024 * 1024) == 100;
    assert NatToString(1) == "1";
    assert NatToString(10) == NatToString(1) + "0";
    assert NatToString(100) == NatToString(10) + "0";
  }

  function HandleCustomError(message: string, statusCode: int): (r: ErrorResponse)
    ensures r.status == statusCode && r.error == message
  {
    ErrorResponse(statusCode, message)
  }

  function HandleMulterError(code: string): (r: ErrorResponse)
    ensures r.status == 400
    ensures code == "LIMIT_FILE_SIZE" <==> r.error == FileTooLarge
    ensures code != "LIMIT_FILE_SIZE" ==> r.error == "File upload error"
  {
    if code == "LIMIT_FILE_SIZE" then ErrorResponse(400, FileTooLarge)
    else ErrorResponse(400, "File upload error")
  }

  /** First match wins: application error, then upload-parser error, then the rest. */
  function HandleError(err: AppError): (r: ErrorResponse)
    ensures err.CustomError? ==> r == ErrorResponse(err.statusCode, err.message)
    ensures err.MulterError? ==> r.status == 400
    ensures err.MulterError? && err.code == "LIMIT_FILE_SIZE" ==> r == ErrorResponse(400, FileTooLarge)
    ensures err.MulterError? && err.code != "LIMIT_FILE_SIZE" ==> r == ErrorResponse(400, "File upload error")
    ensures !err.CustomError? && !err.MulterError? ==> r == ErrorResponse(500, "Internal server error")
  {
    if err.CustomError? then HandleCustomError(err.message, err.statusCode)
    else if err.MulterError? then HandleMulterError(err.code)
    else ErrorResponse(500, "Internal server error")
  }

  /** The handler answers 500 exactly for errors that are neither application nor
      upload errors, and for application errors that carry 500 themselves. */
  lemma ServerErrorIff(err: AppError)
    ensures HandleError(err).status == 500
        <==> (!err.CustomError? && !err.MulterError?) || (err.CustomError? && err.statusCode == 500)
  {
  }

  /** A schema validation failure from the storage layer is not given a response of
      its own: it answers 500 "Internal server error" like any unknown error. */
  lemma SchemaFailureIsInternal(paths: seq<string>)
    ensures HandleError(ValidationError(paths)) == ErrorResponse(500, "Internal server error")
  {
  }

  /** Every refusal of the upload parser (the filter or the limits) answers 400;
      an oversized file answers with the 100MB message. */
  lemma UploadRefusalsAre400(file: UploadedFile, fileCount: nat)
    ensures FileFilter(file).Fail? ==> HandleError(FileFilter(file).error).status == 400
    ensures CheckLimits(file.size, fileCount).Fail? ==> HandleError(CheckLimits(file.size, fileCount).error).status == 400
    ensures file.size > MAX_FILE_SIZE ==>
      HandleError(CheckLimits(file.size, fileCount).error)
        == ErrorResponse(400, "File size too large. Maximum size is 100MB")
  {
    FileTooLargeText();
  }
}
