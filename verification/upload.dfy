/** The upload parser's configuration: the PDF-only file filter, the shape of the
    stored file name, and the size and count limits. The clock and random number
    that make the stored name unique are parameters. */
module Upload {
  import opened Outcomes
  import opened Text
  import opened Paths

  const PdfMimeType: string := "application/pdf"

  /** 100 MiB, in bytes. */
  const MAX_FILE_SIZE: nat := 100 * 1024 * 1024

  datatype Limits = Limits(fileSize: nat, files: nat)

  /** At most `MAX_FILE_SIZE` bytes per file and one file per request. */
  const UploadLimits: Limits := Limits(MAX_FILE_SIZE, 1)

  /** The file artifact the parser hands to the handlers as `req.file`. */
  datatype UploadedFile = UploadedFile(
    fieldname: string,
    originalname: string,
    mimetype: string,
    size: nat,
    filename: string)

  /** The filter: the declared MIME type is checked first, then the extension of the
      original name, compared case-insensitively. `Pass` is `cb(null, true)`. */
  function FileFilter(file: UploadedFile): (r: Outcome)
    ensures r == Pass <==> file.mimetype == PdfMimeType && Lower(Extname(file.originalname)) == ".pdf"
    ensures file.mimetype != PdfMimeType ==> r == Fail(CustomError("Only PDF files are allowed", 400))
    ensures file.mimetype == PdfMimeType && r != Pass ==> r == Fail(CustomError("Only .pdf files are allowed", 400))
  {
    if file.mimetype != PdfMimeType then Fail(CustomError("Only PDF files are allowed", 400))
    else if Lower(Extname(file.originalname)) != ".pdf" then Fail(CustomError("Only .pdf files are allowed", 400))
    else Pass
  }

  /** An upper-case extension passes the filter. */
  lemma UpperCaseExtensionAccepted(fieldname: string, size: nat, filename: string)
    ensures FileFilter(UploadedFile(fieldname, "X.PDF", PdfMimeType, size, filename)) == Pass
  {
    ExtnameOfUpperPdf();
    LowerOfUpperPdf();
  }

  lemma ExtnameOfUpperPdf()
    ensures Extname("X.PDF") == ".PDF"
  {
    var name := "X.PDF";
    assert name[2..] == "PDF";
    ExtnameAt(name, 1);
    assert name[1..] == ".PDF";
  }

  lemma LowerOfUpperPdf()
    ensures Lower(".PDF") == ".pdf"
  {
    var lowered := Lower(".PDF");
    assert lowered[0] == '.' && lowered[1] == 'p' && lowered[2] == 'd' && lowered[3] == 'f';
  }

  /** A text file renamed to `.pdf` but declared as text is refused on its type. */
  lemma WrongTypeRefusedFirst(file: UploadedFile)
    requires file.mimetype == "text/plain"
    ensures FileFilter(file) == Fail(CustomError("Only PDF files are allowed", 400))
  {
  }

  /** `Date.now() + '-' + Math.round(Math.random() * 1E9)`. */
  function UniqueSuffix(now: nat, random: nat): string {
    NatToString(now) + "-" + NatToString(random)
  }

  /** The name the file is stored under: field name, suffix, and the original extension. */
  function StoredFilename(fieldname: string, originalname: string, now: nat, random: nat): string {
    fieldname + "-" + UniqueSuffix(now, random) + Extname(originalname)
  }

  /** The stored name is a bare file name and has the same extension as the original. */
  lemma StoredFilenameKeepsExtension(fieldname: string, originalname: string, now: nat, random: nat)
    requires '/' !in fieldname && '.' !in fieldname
    ensures Basename(StoredFilename(fieldname, originalname, now, random))
         == StoredFilename(fieldname, originalname, now, random)
    ensures Extname(StoredFilename(fieldname, originalname, now, random)) == Extname(originalname)
  {
    var a, b := NatToString(now), NatToString(random);
    NoDigitIn('/', a);
    NoDigitIn('.', a);
    NoDigitIn('/', b);
    NoDigitIn('.', b);
    var pre := fieldname + "-" + (a + "-" + b);
    assert '/' !in pre && '.' !in pre;
    var ext := Extname(originalname);
    assert pre + ext == StoredFilename(fieldname, originalname, now, random);
    BasenameOfPlain(pre + ext);
    ExtnameOfStem(pre, ext);
  }

  /** A character that is not a digit does not occur in a decimal rendering. */
  lemma NoDigitIn(c: char, digits: string)
    requires !IsDigit(c)
    requires forall i :: 0 <= i < |digits| ==> IsDigit(digits[i])
    ensures c !in digits
  {
  }

  /** The upload limits: a file over `MAX_FILE_SIZE` bytes is refused with
      `LIMIT_FILE_SIZE`; a second file in one request with `LIMIT_FILE_COUNT`. */
  function CheckLimits(size: nat, fileCount: nat): (r: Outcome)
    ensures r == Pass <==> size <= UploadLimits.fileSize && fileCount <= UploadLimits.files
    ensures size > MAX_FILE_SIZE ==> r == Fail(MulterError("LIMIT_FILE_SIZE"))
    ensures r.Fail? ==> r.error.MulterError?
  {
    if size > UploadLimits.fileSize then Fail(MulterError("LIMIT_FILE_SIZE"))
    else if fileCount > UploadLimits.files then Fail(MulterError("LIMIT_FILE_COUNT"))
    else Pass
  }

  lemma MaxFileSizeIs100MiB()
    ensures MAX_FILE_SIZE == 104857600 && MAX_FILE_SIZE / (1024 * 1024) == 100
  {
  }
}
