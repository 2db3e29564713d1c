/**
 * Upload validation and routing in `analyze_resume`: the file-type check on the
 * lowercased filename, then the empty-body check, then the size limit, and
 * finally the choice between the PDF extractor and a plain UTF-8 decode.
 */
module Upload {
  import opened Text
  import opened Http

  /** The suffixes `analyze_resume` accepts, in the order of its tuple. */
  const AllowedSuffixes: seq<string> := [".pdf", ".doc", ".docx", ".txt"]

  /** 5 MiB: the largest body accepted. */
  const MaxUploadBytes: nat := 5 * 1024 * 1024

  const InvalidFileType := HttpError(400, "Invalid file type. Only PDF, DOC, DOCX, and TXT are allowed")
  const EmptyFile := HttpError(400, "Empty file received")
  const FileTooLarge := HttpError(400, "File size exceeds 5MB limit")

  /** How the text of an accepted upload is obtained. */
  datatype Route = PdfExtractor | Utf8Decode

  datatype Validation = Rejected(error: HttpError) | Accepted(route: Route)

  predicate HasAllowedType(filename: string) {
    EndsWithAny(Lower(filename), AllowedSuffixes)
  }

  predicate IsPdf(filename: string) {
    EndsWith(Lower(filename), ".pdf")
  }

  /**
   * The checks of `analyze_resume` on a filename and a body of `size` bytes, in
   * order, the first failure winning; an upload that passes them all is routed.
   */
  function Validate(filename: string, size: nat): (v: Validation)
    ensures v == Rejected(InvalidFileType) <==> !HasAllowedType(filename)
    ensures v == Rejected(EmptyFile) <==> HasAllowedType(filename) && size == 0
    ensures v == Rejected(FileTooLarge) <==> HasAllowedType(filename) && size > MaxUploadBytes
    ensures v.Accepted? <==> HasAllowedType(filename) && 0 < size <= MaxUploadBytes
    ensures v.Accepted? ==> (v.route == PdfExtractor <==> IsPdf(filename))
  {
    if !HasAllowedType(filename) then Rejected(InvalidFileType)
    else if size == 0 then Rejected(EmptyFile)
    else if size > MaxUploadBytes then Rejected(FileTooLarge)
    else Accepted(if IsPdf(filename) then PdfExtractor else Utf8Decode)
  }

  /** The type check is case-insensitive: it asks whether one of the four suffixes ends the name in any mix of cases. */
  lemma AllowedTypeIgnoresCase(filename: string)
    ensures HasAllowedType(filename) <==>
      exists i :: 0 <= i < |AllowedSuffixes| && EndsWithIgnoringCase(filename, AllowedSuffixes[i])
  {
  }

  /** Only a name ending in `.pdf`, in any mix of cases, goes to the PDF extractor. */
  lemma PdfRouteIgnoresCase(filename: string, size: nat)
    requires Validate(filename, size).Accepted?
    ensures Validate(filename, size).route == PdfExtractor <==> EndsWithIgnoringCase(filename, ".pdf")
  {
  }

  /** Every other accepted file, `.doc` and `.docx` included, is decoded as UTF-8 text. */
  lemma NonPdfIsDecoded(filename: string, size: nat)
    requires Validate(filename, size).Accepted?
    ensures Validate(filename, size).route == Utf8Decode <==>
      EndsWith(Lower(filename), ".doc") || EndsWith(Lower(filename), ".docx") || EndsWith(Lower(filename), ".txt")
  {
    var t := Lower(filename);
    assert EndsWith(t, AllowedSuffixes[0]) || EndsWith(t, AllowedSuffixes[1]) ||
           EndsWith(t, AllowedSuffixes[2]) || EndsWith(t, AllowedSuffixes[3]);
    EndsWithLastChar(t, ".pdf");
    EndsWithLastChar(t, ".doc");
    EndsWithLastChar(t, ".docx");
    EndsWithLastChar(t, ".txt");
  }

  /** The type is decided first: a zero-byte `.exe` is an invalid type, not an empty file. */
  lemma ZeroByteExeIsInvalidType()
    ensures Validate("resume.exe", 0) == Rejected(InvalidFileType)
  {
    var t := Lower("resume.exe");
    assert t[|t| - 1] == 'e';
    forall i | 0 <= i < |AllowedSuffixes| ensures !EndsWith(t, AllowedSuffixes[i]) {
      EndsWithLastChar(t, AllowedSuffixes[i]);
    }
  }

  /** An accepted type with an empty body is reported as an empty file. */
  lemma ZeroByteTxtIsEmpty()
    ensures Validate("resume.txt", 0) == Rejected(EmptyFile)
  {
    assert Lower("resume.txt")[6..] == ".txt";
    assert EndsWith(Lower("resume.txt"), AllowedSuffixes[3]);
  }

  /** The size limit is inclusive: exactly 5 MiB passes, one byte more does not. */
  lemma SizeLimitIsExact(filename: string)
    requires HasAllowedType(filename)
    ensures Validate(filename, MaxUploadBytes).Accepted?
    ensures Validate(filename, MaxUploadBytes + 1) == Rejected(FileTooLarge)
    ensures MaxUploadBytes == 5242880
  {
  }

  /** Upper-case `.DOCX` is accepted and, not being a PDF, decoded as text. */
  lemma UpperCaseDocxIsDecoded()
    ensures Validate("CV.DOCX", 10) == Accepted(Utf8Decode)
  {
    var t := Lower("CV.DOCX");
    assert t == "cv.docx";
    assert EndsWith(t, AllowedSuffixes[2]);
    assert !EndsWith(t, ".pdf") by { assert t[6] == 'x'; }
  }
}
