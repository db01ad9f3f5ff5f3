# PDF-Summarizer: the page summarisation loop, modelled in Dafny

PDF-Summarizer reads a PDF into one string per page and asks the OpenAI
completions API for a summary of each page. This project models the part of
the program with logic in it: the per-page summarisation loop and the request
it builds for each page. The repository holds two versions of that loop.

- `summarize_utils.py` is the current version. Each page gets up to six
  calls. A rate-limit error on attempt `i` (counted from 0) is followed by a
  sleep of `2**i` seconds. Any other exception escapes at once. The reply is
  stripped of surrounding whitespace.
- `helper.py` is the legacy version. A page whose call raises anything gets
  one more call after a 60-second sleep. A second failure escapes. The reply
  is kept unstripped.

The remote service is an oracle, `Service = (nat, Request) -> Outcome`: its
answer to the n-th request of a run. A call either completes with the text
of the first choice or raises a rate-limit error or some other error.
Sleeping appends to a trace its duration and the number of calls made
before it, so the trace says between which two calls each sleep falls; no
time passes. The class `OpenAI.Environment` holds the oracle, the requests
sent so far and the sleeps so far. Its `Create` and `Sleep` methods are the two effects the
summarisers have.

Each version's `summarize_text` is an imperative method
(`SummarizeUtils.SummarizeText`, `Helper.SummarizeText`). Its loops mirror
the Python loops: the nested `for` with `break` in the current version, and
the `try`/`except` in the legacy one. Each method is proved equal to a
specification function, `Pipeline.Summarize`. That function walks the pages
with the version's retry policy (`Step`) and keeps, for each page, the effects
and a verdict: kept, dropped, or aborted by an exception. The properties are
then proved about `Summarize` and the per-page functions
(`SummarizeUtils.Attempts`, `Helper.PageAttempt`).

The model follows the code as written, in three places where a description
of the program could suggest otherwise:

- The token budget `window - len(text) // 3` has no floor. It is zero or
  negative from 12291 characters on (window 4097) or from 24576 characters
  on (window 8192).
- In the current version, a page that is rate-limited on all six attempts
  is dropped silently. Nothing is appended and nothing is raised, so the
  result can be shorter than the input.
- The sixth failed attempt is still followed by its 32-second sleep, so an
  exhausted page sleeps 63 seconds in all.

## Model

| member | source | states |
|---|---|---|
| OpenAI.Prompt | summarize_utils.py:64 | The prompt is the fixed instruction followed by the page text verbatim; the text can be read back from it. |
| OpenAI.Budget | summarize_utils.py:66 | The budget is the window less `len(text) // 3`, stated without division: three times the deduction is at most the length and within 3 of it. |
| OpenAI.SummaryRequestInjective | summarize_utils.py:62-70 | The request is determined by the page: two pages giving the same request are the same page. |
| OpenAI.Environment.Create | summarize_utils.py:62-70 | A call appends its request to the requests sent and returns the service's answer to that request number. |
| OpenAI.Environment.Sleep | summarize_utils.py:46 | `sleep(seconds)` appends the duration, with the number of calls made so far, to the sleep trace and changes nothing else. |
| OpenAI.SleepBeforeCallDiffers | helper.py:113-116 | The trace tells a sleep followed by a call from the same call followed by the sleep. |
| SummarizeUtils.BuildRequest | summarize_utils.py:62-69 | The request has the fixed model, the prompt `Prompt(text)` (the fixed prefix, then the page text verbatim), `max_tokens` equal to `Budget(4097, text)`, i.e. `4097 - len(text) // 3` with no floor (at most 0 exactly when the page has at least 12291 characters), temperature 0, top_p 1 and no penalties. |
| SummarizeUtils.GetGptResponse | summarize_utils.py:51-70 | One call with the page's request; a reply comes back stripped, an exception unchanged. |
| SummarizeUtils.Attempts | summarize_utils.py:38-46 | The retry loop from attempt `i` sends at most one request per remaining attempt. |
| SummarizeUtils.RetryPage | summarize_utils.py:38-46 | The inner `for i in range(max_retries)` loop leaves exactly the effects and verdict of Attempts from attempt 0, with the kept reply stripped. |
| SummarizeUtils.SummarizeText | summarize_utils.py:24-48 | The effects of the nested loops and their result (the list, or the escaping exception) are those of the page loop over Step. |
| SummarizeUtils.LeadingRateLimitsSpec | summarize_utils.py:38-46 | The count of leading rate-limit errors is exact: every answer before it is one, and the next answer within the six attempts is not. |
| SummarizeUtils.AttemptsIsClosedRun | summarize_utils.py:38-46 | The retry loop in closed form: with `k` leading rate-limit errors, it makes `k + 1` calls (or six), sleeps `2**0 .. 2**(k-1)`, and the page ends as answer `k` does (or is dropped). |
| SummarizeUtils.BackoffsAt | summarize_utils.py:43-46 | The backoff sleep of attempt `from + j` lasts `2**(from + j)` seconds and falls right after that attempt's call. |
| SummarizeUtils.BackoffsSum | summarize_utils.py:44 | The sleeps of attempts `from .. from + count - 1` add up to `2**(from+count) - 2**from` seconds. |
| SummarizeUtils.BackoffFollowsAttempt | summarize_utils.py:43-46 | A page's j-th sleep lasts `2**j` seconds and falls right after its j-th call, before the next one. |
| SummarizeUtils.PageAttemptBounds | summarize_utils.py:34-46 | Each page makes 1 to 6 calls, all with its request. It sleeps once per call when dropped and once less otherwise. An exception escaping it is never a rate-limit error. |
| SummarizeUtils.BackoffThenReply | summarize_utils.py:38-46 | If the first `k < 6` answers are rate-limit errors and the next is a reply `s`, the page makes `k + 1` calls, sleeps `1, 2, ..., 2**(k-1)` seconds, each right after the call it follows (`2**k - 1` s in all), and keeps `s`. |
| SummarizeUtils.OtherErrorEndsPage | summarize_utils.py:39-43 | A non-rate-limit exception on attempt `k` escapes there: `k + 1` calls, only the `k` earlier backoff sleeps, nothing after. |
| SummarizeUtils.SixBackoffs | summarize_utils.py:43-46 | The six backoff sleeps of a page are 1, 2, 4, 8, 16 and 32 seconds after its first to sixth calls, 63 s in all. |
| SummarizeUtils.ExhaustedPageDropped | summarize_utils.py:37-46 | A page rate-limited six times makes six calls, sleeps 1, 2, 4, 8, 16, 32 seconds, one after each call, the last after the sixth (63 s), and is dropped without an error. |
| SummarizeUtils.DroppedOnlyWhenExhausted | summarize_utils.py:38-46 | A page is dropped only if all six of its answers were rate-limit errors. |
| SummarizeUtils.RequestsInPageOrder | summarize_utils.py:36-46 | Pages are attempted in input order: page `k` only appends its own requests, at most six, and at least one when reached. |
| SummarizeUtils.OtherErrorStopsRun | summarize_utils.py:39-43 | A non-rate-limit exception on attempt `a` of page `k` ends the whole call with that exception; the effects end with page `k`'s `a + 1` calls and its `a` backoff sleeps, so no later attempt or page follows. |
| SummarizeUtils.ExhaustedPageSkipped | summarize_utils.py:37-48 | An exhausted page does not stop the run: the next page is reached and the list is unchanged. |
| SummarizeUtils.FullLengthIffNoneExhausted | summarize_utils.py:36-48 | A run that returns gives one summary per page exactly when no page was rate-limited on all six attempts. |
| SummarizeUtils.SummaryTrimmed | summarize_utils.py:70 | A page's summary is the reply that ended its attempts, stripped, so it has no surrounding whitespace; stripping does not change whether a page is kept. |
| SummarizeUtils.AlwaysRepliesPage | summarize_utils.py:38-41 | With a reply on the first attempt, the page takes one call, no sleep, and keeps the stripped reply. |
| SummarizeUtils.AlwaysRepliesEffects | summarize_utils.py:36-41 | If the service always replies, the run returns normally, sends one request per page in page order and never sleeps. |
| SummarizeUtils.AlwaysRepliesAt | summarize_utils.py:36-41 | If the service always replies, page `k` is kept with the stripped answer to the k-th call of the run. |
| SummarizeUtils.AlwaysRepliesRun | summarize_utils.py:36-41 | If the service always replies, the output has one summary per page, the k-th being the stripped reply to page k's request. |
| PyStrings.IsSpace | summarize_utils.py:70 | The whitespace `strip()` removes is exactly the 29 characters Python's `str.isspace()` accepts, listed one by one. |
| PyStrings.Strip | summarize_utils.py:70 | `str.strip()` with no argument: whitespace removed at both ends, so never longer than its argument; its meaning is pinned down by StripFlanked and StripUnique. |
| PyStrings.TrimStartSpec | summarize_utils.py:70 | Dropping leading whitespace leaves a suffix that does not start with whitespace, and only whitespace was dropped. |
| PyStrings.TrimEndSpec | summarize_utils.py:70 | The mirror image for trailing whitespace. |
| PyStrings.StripFlanked | summarize_utils.py:70 | `strip()` leaves a slice with no surrounding whitespace, and only whitespace lies outside it. |
| PyStrings.StripUnique | summarize_utils.py:70 | Any such whitespace-flanked slice is the result of `strip()`. |
| PyStrings.StripIdempotent | summarize_utils.py:70 | Stripping twice is stripping once. |
| PyStrings.StripFixesTrimmed | summarize_utils.py:70 | `strip()` returns its argument unchanged exactly when the argument has no surrounding whitespace. |
| Pipeline.Summarize | summarize_utils.py:36-48 | The page loop never returns more summaries than pages. |
| Pipeline.StoppedIsFinal | summarize_utils.py:37-43 | Once an exception escapes a page, no later page is attempted. |
| Pipeline.PageAborted | summarize_utils.py:39-43 | An exception escaping page `k` ends the run with that exception, and with page `k`'s effects as the last ones. |
| Pipeline.RunningThroughout | summarize_utils.py:36-48 | A run that returns normally reached every page, and no page raised. |
| Pipeline.ResponsesFollowPages | summarize_utils.py:36-41 | The summaries appear in page order: the j-th is the one kept for the j-th kept page, those pages increase strictly, and every kept page is among them. |
| Pipeline.FullLengthIff | summarize_utils.py:36-48 | A run that returns gives one summary per page exactly when every page was kept. |
| Pipeline.NoDropsAligned | helper.py:108-119 | With a retry policy that never drops a page, a run that returns gives one summary per page, the k-th being page k's. |
| Helper.BuildRequest | helper.py:151-158 | The request has the same model and prompt `Prompt(text)` (the fixed prefix, then the page text verbatim), `max_tokens` equal to `Budget(8192, text)`, i.e. `8192 - len(text) // 3` with no floor (at most 0 exactly from 24576 characters on), temperature 0, top_p 1 and no penalties. |
| Helper.GetGptResponse | helper.py:140-159 | One call with the page's request; the reply is returned unstripped. |
| Helper.PageAttempt | helper.py:110-116 | A page is never dropped silently, and it sends one or two requests. |
| Helper.RetryPage | helper.py:110-116 | The `try`/`except` leaves exactly the effects and verdict of PageAttempt. |
| Helper.SummarizeText | helper.py:95-119 | The effects of the loop and its result (the list, or the escaping exception) are those of the page loop over Step. |
| Helper.FirstReplyKept | helper.py:110-111 | A first call that succeeds is the page's only call: no sleep, and the reply is kept verbatim. |
| Helper.FailureThenRetry | helper.py:113-116 | A first call that raises anything is followed by one 60-second sleep and then one more call with the same request: the sleep falls between the two calls. The page ends as the second call does. |
| Helper.PageAttemptBounds | helper.py:110-116 | One or two calls per page, all with its request. A single 60 s sleep, between the two calls, exactly when there are two. An exception escapes only when both calls raised, and it is the second one. |
| Helper.RequestsInPageOrder | helper.py:109-116 | Pages are attempted in input order: page `k` only appends its own requests, at most two, and at least one when reached. |
| Helper.TwoFailuresStopRun | helper.py:113-116 | Two failures on one page end the run with the second exception, after that page's two calls with the sleep between them. |
| Helper.ReturnedRunAligned | helper.py:108-119 | A run that returns gives one summary per page, in page order, the k-th being the reply that ended page k. |
| Helper.AlwaysRepliesEffects | helper.py:108-111 | If the service always replies, the run returns normally, sends one request per page in page order and never sleeps. |
| Helper.AlwaysRepliesRun | helper.py:108-111 | If the service always replies, the k-th summary is the unstripped reply to page k's request, the k-th call of the run. |

## Left out

- The network call `openai.completions.create` is an oracle of the request and the call's position in the run. Which replies the service gives is not modelled.
- The response object is reduced to `choices[0].text`. Accessing it cannot fail in the model.
- `time.sleep` records a duration and its place among the calls, nothing else. No time passes, and nothing depends on the clock.
- Logging (`logger.warning`, `logging.info`, `logging.warning`) has no semantic effect and is not modelled.
- Loading the API key from `.env`, and the `collections` patch at the top of both files, are module-level configuration and are not modelled.
- Exceptions that are not `Exception` subclasses (`KeyboardInterrupt`, `SystemExit`) are not modelled. The legacy `except Exception` does not catch them.
- PDF reading, OCR, mimetype checks, file writing, text-to-speech, `main.py` and `summarizer.py` are input/output around the loop and are not part of this model.
- The current version strips every reply. The model strips only the reply that is kept (`SummarizeUtils.StripKept`); the other replies are never used, so the result is the same.
- Page texts or replies holding a lone surrogate (U+D800 to U+DFFF) cannot be represented: a Python `str` may hold one, a Dafny `char` may not.
- `len(text)` is the number of code points, which is the length of a Dafny `string` for every other text. Python's `//` is floor division, which agrees with Dafny's `/` on the non-negative lengths involved.
