# Resume analyzer backend, modelled in Dafny

A model of the request handling of the resume analyzer's backend
(`backend/main.py`): the `POST /api/analyze` endpoint `analyze_resume` and the
retry loop `retry_gemini_request` it calls.

- **Upload validation and routing** (`upload.dfy`, module `Upload`, with the
  string operations in `text.dfy`): the lowercased filename must end in `.pdf`,
  `.doc`, `.docx` or `.txt`; then the body must be non-empty; then at most
  5 MiB (5,242,880 bytes). The first failing check gives its HTTP 400. An
  accepted upload whose lowercased name ends in `.pdf` goes to the PDF
  extractor. Every other accepted upload goes to a UTF-8 decode, `.doc` and
  `.docx` included.
- **Prompt construction** (`prompt.dfy`, module `Prompt`): the fixed
  instruction template followed by `text[:45000]`.
- **Bounded retry with exponential backoff** (`retry.dfy`, module `Retry`): a
  `while` loop over the attempt number. It stops at the first call that
  answers. It sleeps 2^attempt seconds after each call that raises, the final
  one included, and raises HTTP 500 "AI Service unavailable after multiple
  attempts" once all `retries` calls (default 3) have raised. The method
  `RetryGeminiRequest` is proved against the functions `RetryResult`,
  `CallsMade` and `FailedCalls`, and the lemmas state the loop's properties
  in terms of those functions.
- **The endpoint and its error mapping** (`endpoint.dfy`, module `Endpoint`):
  `AnalyzeResume` validates, extracts and calls the retry loop, then maps the
  outcome at the boundary. An `HTTPException` (a validation error or retry
  exhaustion) reaches the caller unchanged. Any other exception becomes
  HTTP 500 "Internal server error". The modelled ones are a failed PDF
  extraction, invalid UTF-8, or a reply whose `.text` cannot be read.

External collaborators are parameters:
- The model call is a total function `respond(prompt, k)`. It gives the
  outcome of the call numbered k (from 0) with that prompt: `Answered(reply)`
  or `Raised`.
- pdfminer's `extract_text` and `bytes.decode('utf-8')` are functions from
  the body to `Option<string>`. `None` means the routine raised.
- `time.sleep` is not performed. The retry method returns a ghost list of the
  delays it would sleep.
- `str.lower()` is modelled as ASCII lowercasing. Other characters are left
  as they are.

Three facts about the code that the model keeps as they are:
- A UTF-8 decode failure and a PDF extraction failure are HTTP 500 "Internal
  server error".
- The loop also sleeps after the final failed call, so three failures mean
  1 + 2 + 4 = 7 seconds of sleep.
- Extracted text is not checked for being empty. Empty text is sent to the
  model like any other.

## Model

| member | source | states |
|---|---|---|
| `Text.Lower` | backend/main.py:73 | lowercasing keeps the length and lowercases each character |
| `Text.EndsWithLowerIff` | backend/main.py:73 | lowercasing a name and testing a lower-case suffix is the same as a character-by-character suffix test that ignores case |
| `Upload.Validate` | backend/main.py:73-84 | each outcome in both directions: invalid type iff no allowed suffix; empty file iff allowed and 0 bytes; too large iff allowed and over 5 MiB; accepted iff allowed and 1..5 MiB bytes; an accepted upload is routed to the PDF extractor iff its lowercased name ends in `.pdf` |
| `Upload.AllowedTypeIgnoresCase` | backend/main.py:73-74 | the type check passes iff one of `.pdf`, `.doc`, `.docx`, `.txt` ends the name, ignoring case |
| `Upload.PdfRouteIgnoresCase` | backend/main.py:84 | an accepted upload uses the PDF extractor iff its name ends in `.pdf`, ignoring case |
| `Upload.NonPdfIsDecoded` | backend/main.py:84 | an accepted upload is UTF-8 decoded iff its lowercased name ends in `.doc`, `.docx` or `.txt` |
| `Upload.ZeroByteExeIsInvalidType` | backend/main.py:73-78 | the type check comes first: a zero-byte `resume.exe` is an invalid type |
| `Upload.ZeroByteTxtIsEmpty` | backend/main.py:73-78 | a zero-byte `resume.txt` passes the type check and is refused as an empty file |
| `Upload.SizeLimitIsExact` | backend/main.py:80-81 | exactly 5,242,880 bytes is accepted and one byte more is refused as too large |
| `Upload.UpperCaseDocxIsDecoded` | backend/main.py:73-84 | `CV.DOCX` is accepted and decoded as text |
| `Prompt.Truncate` | backend/main.py:57 | the embedded text is a prefix of the extracted text of length min(length, 45000) |
| `Prompt.BuildPrompt` | backend/main.py:57 | the prompt is the template followed by the truncated text, and at most 45,000 characters longer than the template |
| `Prompt.ShortTextIsUnchanged` | backend/main.py:57 | text of at most 45,000 characters is embedded unchanged |
| `Prompt.TruncateIsIdempotent` | backend/main.py:57 | truncating twice equals truncating once |
| `Prompt.TailNeverReachesModel` | backend/main.py:57 | two texts that agree on their first 45,000 characters give the same prompt |
| `Retry.FirstAnswer` | backend/main.py:54-62 | the index found is the least call that answers: every earlier call raised, and it answered unless it equals the bound |
| `Retry.Backoffs` | backend/main.py:63-65 | one sleep for each raised call |
| `Retry.BackoffSchedule` | backend/main.py:65 | the sleep after the call numbered k is 2^k seconds |
| `Retry.TotalBackoff` | backend/main.py:63-65 | the sleeps after m raised calls add up to 2^m - 1 seconds |
| `Retry.RetryGeminiRequest` | backend/main.py:53-66 | the loop returns the first answer or raises 500 exactly as `RetryResult` says, makes `CallsMade` calls and sleeps `Backoffs` of the raised calls |
| `Retry.FirstAnswerIsUnique` | backend/main.py:54-62 | the first answering call is unique: any index that answers after only raised calls is it |
| `Retry.AnswersIffSomeCallAnswers` | backend/main.py:54-66 | the loop returns a reply iff one of its `retries` calls answers |
| `Retry.StopsAtFirstAnswer` | backend/main.py:54-62 | the loop returns the reply of the first answering call k and makes exactly k + 1 calls, with none after the answer |
| `Retry.CallsAreBounded` | backend/main.py:54 | at most `retries` calls, at least one when `retries` is positive |
| `Retry.AllDefaultAttemptsRaise` | backend/main.py:53-66 | three raised calls: three calls, sleeps of 1, 2 and 4 seconds (7 in all), then HTTP 500 "AI Service unavailable after multiple attempts" |
| `Retry.ThirdAttemptAnswers` | backend/main.py:53-65 | two raised calls then an answer: the third reply is returned after three calls and sleeps of 1 and 2 seconds |
| `Endpoint.AtBoundary` | backend/main.py:92-99 | the caller gets `{"data": text}` with the body's text iff the body succeeded, and otherwise either the raised HTTPException unchanged or the generic 500 for another exception |
| `Endpoint.AnalyzeResume` | backend/main.py:68-99 | the endpoint responds as `Analyze` says and calls the model `ModelCalls` times |
| `Endpoint.InvalidTypeIsDecidedFirst` | backend/main.py:73-74 | an invalid type gets 400 without the model being called, whatever the body, the extractors and the model |
| `Endpoint.ValidationErrorReachesCaller` | backend/main.py:73-81 | every validation error (invalid type, empty file, too large) reaches the caller unchanged, with no call to the model |
| `Endpoint.ChecksRunInOrder` | backend/main.py:73-78 | a zero-byte `.exe` gets the invalid-type error and a zero-byte `.txt` the empty-file error, with no call to the model |
| `Endpoint.SizeLimitAtTheEndpoint` | backend/main.py:80-84 | over 5 MiB gets 400 "File size exceeds 5MB limit"; exactly 5 MiB proceeds to extraction |
| `Endpoint.DecodeFailureIsInternalError` | backend/main.py:84-99 | invalid UTF-8 in an accepted non-PDF upload is 500 "Internal server error", with no call to the model |
| `Endpoint.PdfFailureIsInternalError` | backend/main.py:84-99 | a failed PDF extraction is 500 "Internal server error", with no call to the model |
| `Endpoint.DecodedTextIsUsedUnchanged` | backend/main.py:84 | the decoded text of an accepted non-PDF upload is used unchanged |
| `Endpoint.ExhaustionReachesCaller` | backend/main.py:89-96 | when all three calls raise, the caller gets the retry loop's 500 unchanged after three calls |
| `Endpoint.ThirdAnswerReachesCaller` | backend/main.py:89-92 | two raised calls then an answer: the caller gets the third answer's text and no earlier failure |
| `Endpoint.UnreadableReplyIsInternalError` | backend/main.py:89-99 | an answer whose text cannot be read is 500 "Internal server error" after one call |
| `Endpoint.OnlyTruncatedTextMatters` | backend/main.py:57 | two uploads whose extracted texts agree on their first 45,000 characters get the same response and the same number of calls |

## Left out

- FastAPI application setup, CORS middleware, `async`/`await` and reading the multipart body: the model takes the filename and the body as plain inputs.
- A missing filename (`UploadFile.filename` is `None`): the filename is always a string here.
- Environment loading, the startup check for the API key and the Gemini client configuration: process-level setup and a foreign library.
- The remote `generate_content` call and the `GenerativeModel` constructor: replaced by the `respond` function; the temperature and output-token settings are not modelled.
- pdfminer's `extract_text` and UTF-8 decoding itself: opaque routines that yield text or fail.
- `time.sleep` and real time: only the delays requested are recorded, as ghost state.
- Logging: side effects only.
- The Windows event-loop policy: platform plumbing.
- The `/health` endpoint: it samples host memory and CPU and formats floats.
- `Text.Lower`: does not model Python's full Unicode `str.lower()`, because only ASCII letters are lowercased; non-ASCII characters are left unchanged.
