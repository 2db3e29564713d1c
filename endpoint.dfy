/**
 * `POST /api/analyze` (`analyze_resume`): validate the upload, extract its text,
 * ask the model through the retry loop, and answer `{"data": text}`. Inside the
 * `try`, an `HTTPException` reaches the caller unchanged; any other exception
 * becomes HTTP 500 "Internal server error".
 *
 * The upload is its filename and body. The two extraction routines, pdfminer's
 * `extract_text` and `bytes.decode('utf-8')`, are parameters that yield text or
 * fail (`None`), and the model is the `respond` function of the retry loop.
 */
module Endpoint {
  import opened Wrappers
  import opened Http
  import opened Text
  import opened Upload
  import opened Prompt
  import opened Retry

  newtype byte = x: int | 0 <= x < 256

  /** The exceptions other than `HTTPException` that can escape the `try` body. */
  datatype Cause = PdfExtractionFailed | Utf8DecodeFailed | ReplyTextUnavailable

  /** What the `try` body of `analyze_resume` can raise. */
  datatype Fault = HttpFault(error: HttpError) | Unexpected(cause: Cause)

  /** What the caller receives: `{"data": ...}` with status 200, or an error status and detail. */
  datatype Response = Analysis(data: string) | Refused(error: HttpError)

  const InternalError := HttpError(500, "Internal server error")

  /**
   * The two `except` clauses: an `HTTPException` is re-raised as it is, and
   * anything else is replaced by a generic 500 that reveals nothing of the cause.
   */
  function AtBoundary(run: Result<string, Fault>): (resp: Response)
    ensures resp.Analysis? <==> run.Success?
    ensures run.Success? ==> resp == Analysis(run.value)
    ensures resp.Refused? ==>
      run == Failure(HttpFault(resp.error)) || (run.error.Unexpected? && resp.error == InternalError)
  {
    match run
    case Success(text) => Analysis(text)
    case Failure(HttpFault(e)) => Refused(e)
    case Failure(Unexpected(_)) => Refused(InternalError)
  }

  /** The text of an accepted upload, by the route validation chose. */
  function Extract(route: Route, contents: seq<byte>,
                   extractPdf: seq<byte> -> Option<string>,
                   decodeUtf8: seq<byte> -> Option<string>): Result<string, Fault>
  {
    match route
    case PdfExtractor =>
      (match extractPdf(contents)
       case Some(text) => Success(text)
       case None => Failure(Unexpected(PdfExtractionFailed)))
    case Utf8Decode =>
      (match decodeUtf8(contents)
       case Some(text) => Success(text)
       case None => Failure(Unexpected(Utf8DecodeFailed)))
  }

  /** Everything before the model is called: validation, then extraction. */
  function Prepare(filename: string, contents: seq<byte>,
                   extractPdf: seq<byte> -> Option<string>,
                   decodeUtf8: seq<byte> -> Option<string>): Result<string, Fault>
  {
    match Validate(filename, |contents|)
    case Rejected(e) => Failure(HttpFault(e))
    case Accepted(route) => Extract(route, contents, extractPdf, decodeUtf8)
  }

  /** The `try` body: prepared text, the retry loop, then `response.text`. */
  function Run(filename: string, contents: seq<byte>,
               extractPdf: seq<byte> -> Option<string>,
               decodeUtf8: seq<byte> -> Option<string>,
               respond: (string, nat) -> Attempt): Result<string, Fault>
  {
    match Prepare(filename, contents, extractPdf, decodeUtf8)
    case Failure(f) => Failure(f)
    case Success(text) =>
      match RetryResult(respond, BuildPrompt(text), DefaultRetries)
      case Failure(e) => Failure(HttpFault(e))
      case Success(reply) =>
        match reply.text
        case Some(data) => Success(data)
        case None => Failure(Unexpected(ReplyTextUnavailable))
  }

  /** The response `analyze_resume` gives. */
  function Analyze(filename: string, contents: seq<byte>,
                   extractPdf: seq<byte> -> Option<string>,
                   decodeUtf8: seq<byte> -> Option<string>,
                   respond: (string, nat) -> Attempt): Response
  {
    AtBoundary(Run(filename, contents, extractPdf, decodeUtf8, respond))
  }

  /** How many times `analyze_resume` calls the model. */
  function ModelCalls(filename: string, contents: seq<byte>,
                      extractPdf: seq<byte> -> Option<string>,
                      decodeUtf8: seq<byte> -> Option<string>,
                      respond: (string, nat) -> Attempt): nat
  {
    match Prepare(filename, contents, extractPdf, decodeUtf8)
    case Failure(_) => 0
    case Success(text) => CallsMade(respond, BuildPrompt(text), DefaultRetries)
  }

  /** The endpoint, step by step; `calls` counts the calls to the model. */
  method AnalyzeResume(filename: string, contents: seq<byte>,
                       extractPdf: seq<byte> -> Option<string>,
                       decodeUtf8: seq<byte> -> Option<string>,
                       respond: (string, nat) -> Attempt)
    returns (resp: Response, calls: nat)
    ensures resp == Analyze(filename, contents, extractPdf, decodeUtf8, respond)
    ensures calls == ModelCalls(filename, contents, extractPdf, decodeUtf8, respond)
  {
    var run: Result<string, Fault>;
    calls := 0;
    var v := Validate(filename, |contents|);
    if v.Rejected? {
      run := Failure(HttpFault(v.error));
    } else {
      var extracted := Extract(v.route, contents, extractPdf, decodeUtf8);
      if extracted.Failure? {
        run := Failure(extracted.error);
      } else {
        var r;
        ghost var sleeps;
        r, calls, sleeps := RetryGeminiRequest(respond, extracted.value, DefaultRetries);
        if r.Failure? {
          run := Failure(HttpFault(r.error));
        } else if r.value.text.None? {
          run := Failure(Unexpected(ReplyTextUnavailable));
        } else {
          run := Success(r.value.text.value);
        }
      }
    }
    resp := AtBoundary(run);
  }

  /**
   * An invalid type is refused before the body is looked at, text extracted or
   * the model called: the answer is the same whatever the body, the extractors
   * and the model.
   */
  lemma InvalidTypeIsDecidedFirst(filename: string,
                                  c1: seq<byte>, e1: seq<byte> -> Option<string>, d1: seq<byte> -> Option<string>, m1: (string, nat) -> Attempt,
                                  c2: seq<byte>, e2: seq<byte> -> Option<string>, d2: seq<byte> -> Option<string>, m2: (string, nat) -> Attempt)
    requires !HasAllowedType(filename)
    ensures Analyze(filename, c1, e1, d1, m1) == Refused(InvalidFileType)
    ensures Analyze(filename, c1, e1, d1, m1) == Analyze(filename, c2, e2, d2, m2)
    ensures ModelCalls(filename, c1, e1, d1, m1) == 0
  {
  }

  /** Every validation error reaches the caller unchanged, and the model is not called. */
  lemma ValidationErrorReachesCaller(filename: string, contents: seq<byte>, err: HttpError,
                                     e: seq<byte> -> Option<string>, d: seq<byte> -> Option<string>, m: (string, nat) -> Attempt)
    requires Validate(filename, |contents|) == Rejected(err)
    ensures Analyze(filename, contents, e, d, m) == Refused(err)
    ensures ModelCalls(filename, contents, e, d, m) == 0
  {
  }

  /** A zero-byte `.exe` is an invalid type; a zero-byte `.txt` is an empty file; neither calls the model. */
  lemma ChecksRunInOrder(e: seq<byte> -> Option<string>, d: seq<byte> -> Option<string>, m: (string, nat) -> Attempt)
    ensures Analyze("resume.exe", [], e, d, m) == Refused(InvalidFileType)
    ensures Analyze("resume.txt", [], e, d, m) == Refused(EmptyFile)
    ensures ModelCalls("resume.exe", [], e, d, m) == 0
    ensures ModelCalls("resume.txt", [], e, d, m) == 0
  {
    ZeroByteExeIsInvalidType();
    ZeroByteTxtIsEmpty();
  }

  /** A body over 5 MiB is refused; one of exactly 5 MiB gets past validation. */
  lemma SizeLimitAtTheEndpoint(filename: string, contents: seq<byte>,
                               e: seq<byte> -> Option<string>, d: seq<byte> -> Option<string>, m: (string, nat) -> Attempt)
    requires HasAllowedType(filename)
    ensures |contents| > MaxUploadBytes ==> Analyze(filename, contents, e, d, m) == Refused(FileTooLarge)
    ensures |contents| == MaxUploadBytes ==>
      Prepare(filename, contents, e, d) == Extract(Validate(filename, |contents|).route, contents, e, d)
  {
  }

  /**
   * Invalid UTF-8 in an accepted non-PDF upload (`.doc` and `.docx` included)
   * is an internal error, HTTP 500, and the model is not called.
   */
  lemma DecodeFailureIsInternalError(filename: string, contents: seq<byte>,
                                     e: seq<byte> -> Option<string>, d: seq<byte> -> Option<string>, m: (string, nat) -> Attempt)
    requires Validate(filename, |contents|).Accepted? && !IsPdf(filename)
    requires d(contents).None?
    ensures Analyze(filename, contents, e, d, m) == Refused(InternalError)
    ensures ModelCalls(filename, contents, e, d, m) == 0
  {
  }

  /** A PDF the extractor cannot read is an internal error, HTTP 500, and the model is not called. */
  lemma PdfFailureIsInternalError(filename: string, contents: seq<byte>,
                                  e: seq<byte> -> Option<string>, d: seq<byte> -> Option<string>, m: (string, nat) -> Attempt)
    requires Validate(filename, |contents|).Accepted? && IsPdf(filename)
    requires e(contents).None?
    ensures Analyze(filename, contents, e, d, m) == Refused(InternalError)
    ensures ModelCalls(filename, contents, e, d, m) == 0
  {
  }

  /** Text decoded from an accepted non-PDF upload is what the prompt is built from, unchanged. */
  lemma DecodedTextIsUsedUnchanged(filename: string, contents: seq<byte>, text: string,
                                   e: seq<byte> -> Option<string>, d: seq<byte> -> Option<string>)
    requires Validate(filename, |contents|).Accepted? && !IsPdf(filename)
    requires d(contents) == Some(text)
    ensures Prepare(filename, contents, e, d) == Success(text)
  {
  }

  /** When all three calls raise, the caller gets the retry loop's 500 unchanged, after three calls. */
  lemma ExhaustionReachesCaller(filename: string, contents: seq<byte>, text: string,
                                e: seq<byte> -> Option<string>, d: seq<byte> -> Option<string>, m: (string, nat) -> Attempt)
    requires Prepare(filename, contents, e, d) == Success(text)
    requires m(BuildPrompt(text), 0).Raised? && m(BuildPrompt(text), 1).Raised? && m(BuildPrompt(text), 2).Raised?
    ensures Analyze(filename, contents, e, d, m) == Refused(Unavailable)
    ensures ModelCalls(filename, contents, e, d, m) == 3
  {
  }

  /** Two raised calls and then an answer: the caller gets the third answer, and the failures are not surfaced. */
  lemma ThirdAnswerReachesCaller(filename: string, contents: seq<byte>, text: string, data: string,
                                 e: seq<byte> -> Option<string>, d: seq<byte> -> Option<string>, m: (string, nat) -> Attempt)
    requires Prepare(filename, contents, e, d) == Success(text)
    requires m(BuildPrompt(text), 0).Raised? && m(BuildPrompt(text), 1).Raised?
    requires m(BuildPrompt(text), 2) == Answered(Reply(Some(data)))
    ensures Analyze(filename, contents, e, d, m) == Analysis(data)
    ensures ModelCalls(filename, contents, e, d, m) == 3
  {
  }

  /** A reply whose text cannot be read is an internal error, not the retry loop's 500. */
  lemma UnreadableReplyIsInternalError(filename: string, contents: seq<byte>, text: string,
                                       e: seq<byte> -> Option<string>, d: seq<byte> -> Option<string>, m: (string, nat) -> Attempt)
    requires Prepare(filename, contents, e, d) == Success(text)
    requires m(BuildPrompt(text), 0) == Answered(Reply(None))
    ensures Analyze(filename, contents, e, d, m) == Refused(InternalError)
    ensures ModelCalls(filename, contents, e, d, m) == 1
  {
  }

  /**
   * Only the first 45,000 characters of the extracted text matter: two uploads
   * whose texts agree that far get the same answer from the same model.
   */
  lemma OnlyTruncatedTextMatters(f1: string, c1: seq<byte>, e1: seq<byte> -> Option<string>, d1: seq<byte> -> Option<string>, t1: string,
                                 f2: string, c2: seq<byte>, e2: seq<byte> -> Option<string>, d2: seq<byte> -> Option<string>, t2: string,
                                 m: (string, nat) -> Attempt)
    requires Prepare(f1, c1, e1, d1) == Success(t1) && Prepare(f2, c2, e2, d2) == Success(t2)
    requires Truncate(t1) == Truncate(t2)
    ensures Analyze(f1, c1, e1, d1, m) == Analyze(f2, c2, e2, d2, m)
    ensures ModelCalls(f1, c1, e1, d1, m) == ModelCalls(f2, c2, e2, d2, m)
  {
  }
}
