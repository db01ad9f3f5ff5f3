/** `summarize_utils.py`: the current summariser. Each page gets up to six
    calls; a rate-limit error on attempt `i` is followed by a sleep of `2**i`
    seconds; any other exception escapes at once; a page rate-limited six
    times is left out of the result without an error. */
module SummarizeUtils {
  import opened OpenAI
  import opened PyStrings
  import opened Pipeline

  /** `max_retries` */
  const MaxRetries: nat := 6

  /** The context window `get_gpt_response` subtracts the page estimate from. */
  const ContextWindow: int := 4097

  /** The request `get_gpt_response(text)` sends. Its token budget is not
      floored: it is zero or negative exactly from 12291 characters on. */
  function BuildRequest(text: string): (r: Request)
    ensures r.model == Model && r.prompt == Prompt(text) && r.maxTokens == Budget(ContextWindow, text)
    ensures r.temperature == 0 && r.topP == 1 && r.frequencyPenalty == 0 && r.presencePenalty == 0
    ensures |PromptPrefix| <= |r.prompt| && r.prompt[|PromptPrefix|..] == text
    ensures r.maxTokens <= 0 <==> |text| >= 12291
  {
    SummaryRequest(text, ContextWindow)
  }

  /** What `get_gpt_response` makes of the service's answer: the reply text
      stripped, or the same exception. */
  function Stripped(o: Outcome): Outcome {
    match o
    case Completion(s) => Completion(Strip(s))
    case Raised(e) => o
  }

  /** `get_gpt_response(text)`: one call to the service with the page's
      request. A reply comes back with its surrounding whitespace removed. */
  method GetGptResponse(env: Environment, text: string) returns (o: Outcome)
    modifies env`requests
    ensures env.CurrentTrace() == Sent(old(env.CurrentTrace()), BuildRequest(text))
    ensures o == Stripped(Answer(env.service, old(env.CurrentTrace()), BuildRequest(text)))
  {
    o := env.Create(BuildRequest(text));
    if o.Completion? {
      o := Completion(Strip(o.text));
    }
  }

  /** `2 ** i` */
  function Pow2(i: nat): (r: nat)
    ensures r >= 1
  {
    if i == 0 then 1 else 2 * Pow2(i - 1)
  }

  /** The backoff sleeps of attempts `from`, `from + 1`, ..., `from + count - 1`
      when the call of attempt `from` is the `after`-th of the run: each one
      right after its attempt's call. */
  function Backoffs(after: nat, from: nat, count: nat): seq<Pause>
    decreases count
  {
    if count == 0 then [] else [Pause(after, Pow2(from))] + Backoffs(after + 1, from + 1, count - 1)
  }

  function Repeat(req: Request, count: nat): seq<Request> {
    if count == 0 then [] else [req] + Repeat(req, count - 1)
  }

  /** Attempts `i` to `MaxRetries - 1` of the inner `for i in range(max_retries)`
      loop for one page whose request is `req`, from the effects `tr`. Each
      attempt sends `req`; a reply ends the page with the text as the
      service sent it, a rate-limit error sleeps `2**i` and goes on, another
      exception escapes. At most one call per remaining attempt. */
  function Attempts(service: Service, tr: Trace, req: Request, i: nat): (r: PageRun)
    requires i <= MaxRetries
    ensures |tr.requests| <= |r.trace.requests| <= |tr.requests| + MaxRetries - i
    decreases MaxRetries - i
  {
    if i == MaxRetries then PageRun(tr, Dropped)
    else
      var sent := Sent(tr, req);
      match Answer(service, tr, req)
      case Completion(s) => PageRun(sent, Kept(s))
      case Raised(RateLimitError) => Attempts(service, Slept(sent, Pow2(i)), req, i + 1)
      case Raised(OtherError(m)) => PageRun(sent, Aborted(OtherError(m)))
  }

  /** One unfolding of Attempts, by the service's answer to attempt `i`. */
  lemma AttemptOnce(service: Service, tr: Trace, req: Request, i: nat)
    requires i < MaxRetries
    ensures var o := Answer(service, tr, req);
            var r := Attempts(service, tr, req, i);
      (o.Completion? ==> r == PageRun(Sent(tr, req), Kept(o.text))) &&
      (IsRateLimited(o) ==> r == Attempts(service, Slept(Sent(tr, req), Pow2(i)), req, i + 1)) &&
      (o.Raised? && o.error.OtherError? ==> r == PageRun(Sent(tr, req), Aborted(o.error)))
  {
  }

  /** `get_gpt_response` strips every reply before the loop looks at it;
      only the reply that ends the page is kept, so stripping the kept reply
      alone gives the same summary. */
  function StripKept(r: PageRun): PageRun {
    match r.verdict
    case Kept(s) => PageRun(r.trace, Kept(Strip(s)))
    case _ => r
  }

  /** The retry policy of this version, as a page step for the page loop. */
  function Step(service: Service): PageStep {
    (tr: Trace, page: string) => StripKept(Attempts(service, tr, BuildRequest(page), 0))
  }

  /** The body of `for page in text`: the inner `for i in range(max_retries)`
      loop for one page. `break` after a reply becomes returning the kept
      summary; an exception other than a rate-limit error is returned as the
      page's verdict for the caller to propagate. The effects and the verdict
      are those of Attempts from attempt 0. */
  method RetryPage(env: Environment, page: string) returns (verdict: PageVerdict)
    modifies env
    ensures StripKept(Attempts(env.service, old(env.CurrentTrace()), BuildRequest(page), 0)) == PageRun(env.CurrentTrace(), verdict)
  {
    for i := 0 to MaxRetries
      invariant Attempts(env.service, env.CurrentTrace(), BuildRequest(page), i) ==
                Attempts(env.service, old(env.CurrentTrace()), BuildRequest(page), 0)
    {
      AttemptOnce(env.service, env.CurrentTrace(), BuildRequest(page), i);
      var reply := GetGptResponse(env, page);
      if reply.Completion? {
        return Kept(reply.text);
      } else if reply.error.RateLimitError? {
        env.Sleep(Pow2(i));
      } else {
        return Aborted(reply.error);
      }
    }
    verdict := Dropped;
  }

  /** `summarize_text(text)`: the page loop. The effects and the result are
      those of the page loop with this version's retry policy. */
  method SummarizeText(env: Environment, text: seq<string>) returns (result: RunResult)
    modifies env
    ensures env.CurrentTrace() == Summarize(Step(env.service), old(env.CurrentTrace()), text).trace
    ensures result == ResultOf(Summarize(Step(env.service), old(env.CurrentTrace()), text))
  {
    ghost var start := env.CurrentTrace();
    var responses: seq<string> := [];
    for p := 0 to |text|
      invariant Summarize(Step(env.service), start, text[..p]) == Run(env.CurrentTrace(), responses, Running)
    {
      ghost var before := env.CurrentTrace();
      var verdict := RetryPage(env, text[p]);
      BeforeNext(Step(env.service), start, text, p);
      assert Step(env.service)(before, text[p]) == PageRun(env.CurrentTrace(), verdict);
      match verdict
      case Kept(summary) =>
        responses := responses + [summary];
      case Dropped =>
      case Aborted(e) =>
        PageAborted(Step(env.service), start, text, p, e);
        return Propagated(e);
    }
    assert text[..|text|] == text;
    result := Returned(responses);
  }

  // ---------------------------------------------------------------------
  // Attempts in closed form

  /** The answer to attempt `a` of a page whose attempt 0 is call `n` is a
      rate-limit error. */
  predicate RateLimitedAt(service: Service, n: nat, req: Request, a: nat) {
    IsRateLimited(service(n + a, req))
  }

  /** The number of leading rate-limit errors among the answers to attempts
      `i`, `i + 1`, ..., `MaxRetries - 1` of a page whose attempt `i` is call
      `n`: how many attempts fail before one settles, capped by the attempts
      left. */
  function LeadingRateLimits(service: Service, n: nat, req: Request, i: nat): (k: nat)
    requires i <= MaxRetries
    ensures k <= MaxRetries - i
    decreases MaxRetries - i
  {
    if i == MaxRetries || !IsRateLimited(service(n, req)) then 0
    else 1 + LeadingRateLimits(service, n + 1, req, i + 1)
  }

  /** The count is the run of leading rate-limit errors: every answer before
      it is one, and the answer it stops at (if an attempt is left) is not. */
  lemma {:induction false} LeadingRateLimitsSpec(service: Service, n: nat, req: Request, i: nat)
    requires i <= MaxRetries
    ensures var k := LeadingRateLimits(service, n, req, i);
      (forall a :: 0 <= a < k ==> RateLimitedAt(service, n, req, a)) &&
      (k < MaxRetries - i ==> !RateLimitedAt(service, n, req, k))
    decreases MaxRetries - i
  {
    if i < MaxRetries && IsRateLimited(service(n, req)) {
      LeadingRateLimitsSpec(service, n + 1, req, i + 1);
      var k := LeadingRateLimits(service, n, req, i);
      forall a | 0 <= a < k
        ensures RateLimitedAt(service, n, req, a)
      {
        if a > 0 {
          assert RateLimitedAt(service, n + 1, req, a - 1);
        }
      }
    }
  }

  /** Conversely, a run of `k` rate-limit errors ended by another answer (or
      by running out of attempts) is counted as exactly `k`. */
  lemma LeadingRateLimitsIs(service: Service, n: nat, req: Request, i: nat, k: nat)
    requires i <= MaxRetries && k <= MaxRetries - i
    requires forall a :: 0 <= a < k ==> RateLimitedAt(service, n, req, a)
    requires k < MaxRetries - i ==> !RateLimitedAt(service, n, req, k)
    ensures LeadingRateLimits(service, n, req, i) == k
  {
    LeadingRateLimitsSpec(service, n, req, i);
  }

  /** How a page ends on an answer that is not a rate-limit error: never
      dropped. */
  function Settle(o: Outcome): (v: PageVerdict)
    ensures !v.Dropped?
  {
    match o
    case Completion(s) => Kept(s)
    case Raised(e) => Aborted(e)
  }

  /** Calls made by a page with `k` leading rate-limit errors and `budget`
      attempts: one more than `k` unless every attempt was rate-limited. */
  function Calls(k: nat, budget: nat): nat {
    if k < budget then k + 1 else k
  }

  /** How attempts `i` onwards end when attempt `i` is call `n`: on the
      first answer that is not a rate-limit error, or Dropped when every
      attempt left was rate-limited. */
  function ClosedVerdict(service: Service, n: nat, req: Request, i: nat): PageVerdict
    requires i <= MaxRetries
  {
    var k := LeadingRateLimits(service, n, req, i);
    if k < MaxRetries - i then Settle(service(n + k, req)) else Dropped
  }

  /** The calls attempts `i` onwards make: one per failed attempt and one
      for the answer that settles the page, if any. */
  function ClosedRequests(service: Service, n: nat, req: Request, i: nat): seq<Request>
    requires i <= MaxRetries
  {
    Repeat(req, Calls(LeadingRateLimits(service, n, req, i), MaxRetries - i))
  }

  /** The sleeps attempts `i` onwards make: one backoff per failed attempt. */
  function ClosedSleeps(service: Service, n: nat, req: Request, i: nat): seq<Pause>
    requires i <= MaxRetries
  {
    Backoffs(n + 1, i, LeadingRateLimits(service, n, req, i))
  }

  /** Attempts `i` onwards in closed form. */
  function ClosedRun(service: Service, tr: Trace, req: Request, i: nat): PageRun
    requires i <= MaxRetries
  {
    var n := |tr.requests|;
    PageRun(Trace(tr.requests + ClosedRequests(service, n, req, i), tr.sleeps + ClosedSleeps(service, n, req, i)),
            ClosedVerdict(service, n, req, i))
  }

  /** Attempts is its closed form, by induction on the attempts left. */
  lemma {:induction false} AttemptsIsClosedRun(service: Service, tr: Trace, req: Request, i: nat)
    requires i <= MaxRetries
    ensures Attempts(service, tr, req, i) == ClosedRun(service, tr, req, i)
    decreases MaxRetries - i
  {
    if i == MaxRetries {
      assert tr.requests + [] == tr.requests && tr.sleeps + [] == tr.sleeps;
    } else {
      AttemptOnce(service, tr, req, i);
      if IsRateLimited(Answer(service, tr, req)) {
        AttemptsIsClosedRun(service, Slept(Sent(tr, req), Pow2(i)), req, i + 1);
        ClosedRunBackoff(service, tr, req, i);
      } else {
        assert Repeat(req, 1) == [req];
        assert tr.sleeps + [] == tr.sleeps;
      }
    }
  }

  /** After a rate-limit error on attempt `i`, the closed form from attempt
      `i + 1` is the closed form from attempt `i`: one more failed attempt,
      one more call and one more backoff sleep at the front. */
  lemma ClosedRunBackoff(service: Service, tr: Trace, req: Request, i: nat)
    requires i < MaxRetries && IsRateLimited(Answer(service, tr, req))
    ensures ClosedRun(service, Slept(Sent(tr, req), Pow2(i)), req, i + 1) == ClosedRun(service, tr, req, i)
  {
    var n := |tr.requests|;
    BackoffStep(service, n, req, i);
    assert |Slept(Sent(tr, req), Pow2(i)).requests| == n + 1;
    AppendAssociative(tr.requests, [req], ClosedRequests(service, n + 1, req, i + 1));
    AppendAssociative(tr.sleeps, [Pause(n + 1, Pow2(i))], ClosedSleeps(service, n + 1, req, i + 1));
  }


  /** The same, for the parts that do not depend on the effects so far. */
  lemma BackoffStep(service: Service, n: nat, req: Request, i: nat)
    requires i < MaxRetries && IsRateLimited(service(n, req))
    ensures ClosedVerdict(service, n + 1, req, i + 1) == ClosedVerdict(service, n, req, i)
    ensures [req] + ClosedRequests(service, n + 1, req, i + 1) == ClosedRequests(service, n, req, i)
    ensures [Pause(n + 1, Pow2(i))] + ClosedSleeps(service, n + 1, req, i + 1) == ClosedSleeps(service, n, req, i)
  {
    var k := LeadingRateLimits(service, n + 1, req, i + 1);
    assert LeadingRateLimits(service, n, req, i) == k + 1;
    assert service((n + 1) + k, req) == service(n + (k + 1), req);
    assert Calls(k + 1, MaxRetries - i) == Calls(k, MaxRetries - (i + 1)) + 1;
  }

  lemma {:induction false} RepeatAt(req: Request, count: nat)
    ensures |Repeat(req, count)| == count
    ensures forall q :: 0 <= q < count ==> Repeat(req, count)[q] == req
    decreases count
  {
    if count > 0 {
      RepeatAt(req, count - 1);
    }
  }

  /** The sleeps of attempts `from` to `from + count - 1` are the successive
      powers of two, the j-th taken after the j-th of their calls. */
  lemma {:induction false} BackoffsAt(after: nat, from: nat, count: nat)
    ensures |Backoffs(after, from, count)| == count
    ensures forall j :: 0 <= j < count ==> Backoffs(after, from, count)[j] == Pause(after + j, Pow2(from + j))
    decreases count
  {
    if count > 0 {
      BackoffsAt(after + 1, from + 1, count - 1);
    }
  }

  /** Together they add up to `2**(from + count) - 2**from` seconds. */
  lemma {:induction false} BackoffsSum(after: nat, from: nat, count: nat)
    ensures Seconds(Backoffs(after, from, count)) == Pow2(from + count) - Pow2(from)
    decreases count
  {
    if count > 0 {
      BackoffsSum(after + 1, from + 1, count - 1);
      assert Backoffs(after, from, count)[1..] == Backoffs(after + 1, from + 1, count - 1);
    }
  }

  // ---------------------------------------------------------------------
  // Properties of one page

  /** Each page gets between one and six calls, every one of them with the
      page's request; it sleeps after every rate-limit error, including the
      sixth, so once per call when dropped and once less otherwise; and an
      exception that escapes it is never a rate-limit error. */
  lemma PageAttemptBounds(service: Service, tr: Trace, req: Request)
    ensures var r := Attempts(service, tr, req, 0);
            var calls := |r.trace.requests| - |tr.requests|;
      tr.requests <= r.trace.requests && 1 <= calls <= MaxRetries &&
      (forall q :: |tr.requests| <= q < |r.trace.requests| ==> r.trace.requests[q] == req) &&
      tr.sleeps <= r.trace.sleeps &&
      |r.trace.sleeps| - |tr.sleeps| == (if r.verdict.Dropped? then calls else calls - 1) &&
      (r.verdict.Aborted? ==> r.verdict.error.OtherError?)
  {
    var n := |tr.requests|;
    var k := LeadingRateLimits(service, n, req, 0);
    AttemptsIsClosedRun(service, tr, req, 0);
    RepeatAt(req, Calls(k, MaxRetries - 0));
    BackoffsAt(n + 1, 0, k);
    if k < MaxRetries {
      LeadingRateLimitsSpec(service, n, req, 0);
      assert !RateLimitedAt(service, n, req, k);
    }
  }

  /** Backoff placement: a page's j-th sleep (from 0) lasts `2**j` seconds
      and falls right after its j-th call, before the next one. */
  lemma BackoffFollowsAttempt(service: Service, tr: Trace, req: Request)
    ensures var r := Attempts(service, tr, req, 0);
      tr.sleeps <= r.trace.sleeps &&
      forall j :: 0 <= j < |r.trace.sleeps| - |tr.sleeps| ==>
        r.trace.sleeps[|tr.sleeps| + j] == Pause(|tr.requests| + j + 1, Pow2(j))
  {
    var n := |tr.requests|;
    var backoffs := Backoffs(n + 1, 0, LeadingRateLimits(service, n, req, 0));
    AttemptsIsClosedRun(service, tr, req, 0);
    assert Attempts(service, tr, req, 0).trace.sleeps == tr.sleeps + backoffs;
    BackoffsPlaced(tr.sleeps, n + 1, LeadingRateLimits(service, n, req, 0));
  }

  lemma BackoffsPlaced(prefix: seq<Pause>, after: nat, count: nat)
    ensures |prefix + Backoffs(after, 0, count)| == |prefix| + count
    ensures forall j :: 0 <= j < count ==>
      (prefix + Backoffs(after, 0, count))[|prefix| + j] == Pause(after + j, Pow2(j))
  {
    BackoffsAt(after, 0, count);
  }

  /** The first `k` backoff sleeps add up to `2**k - 1` seconds. */
  lemma BackoffTotal(after: nat, k: nat)
    ensures Seconds(Backoffs(after, 0, k)) == Pow2(k) - 1
  {
    BackoffsSum(after, 0, k);
  }

  /** Backoff: if the first `k < 6` answers are rate-limit errors and the
      next is a reply `s`, the page sends its request `k + 1` times, sleeps
      1, 2, ..., `2**(k - 1)` seconds in that order (`2**k - 1` in all), and
      keeps `s` (which Step then strips). */
  lemma BackoffThenReply(service: Service, tr: Trace, req: Request, k: nat, s: string)
    requires k < MaxRetries
    requires forall a :: 0 <= a < k ==> RateLimitedAt(service, |tr.requests|, req, a)
    requires service(|tr.requests| + k, req) == Completion(s)
    ensures var r := Attempts(service, tr, req, 0);
      r.verdict == Kept(s) &&
      r.trace.requests == tr.requests + Repeat(req, k + 1) &&
      r.trace.sleeps == tr.sleeps + Backoffs(|tr.requests| + 1, 0, k) &&
      Seconds(Backoffs(|tr.requests| + 1, 0, k)) == Pow2(k) - 1
  {
    LeadingRateLimitsIs(service, |tr.requests|, req, 0, k);
    AttemptsIsClosedRun(service, tr, req, 0);
    assert ClosedRun(service, tr, req, 0).verdict == Settle(Completion(s));
    BackoffTotal(|tr.requests| + 1, k);
  }

  /** An exception other than a rate-limit error on attempt `k` ends the
      page there: `k + 1` calls, the `k` backoff sleeps before it and none
      after, and the exception escapes. */
  lemma OtherErrorEndsPage(service: Service, tr: Trace, req: Request, k: nat, m: string)
    requires k < MaxRetries
    requires forall a :: 0 <= a < k ==> RateLimitedAt(service, |tr.requests|, req, a)
    requires service(|tr.requests| + k, req) == Raised(OtherError(m))
    ensures var r := Attempts(service, tr, req, 0);
      r.verdict == Aborted(OtherError(m)) &&
      r.trace.requests == tr.requests + Repeat(req, k + 1) &&
      r.trace.sleeps == tr.sleeps + Backoffs(|tr.requests| + 1, 0, k)
  {
    LeadingRateLimitsIs(service, |tr.requests|, req, 0, k);
    AttemptsIsClosedRun(service, tr, req, 0);
    assert ClosedRun(service, tr, req, 0).verdict == Settle(Raised(OtherError(m)));
    assert Calls(k, MaxRetries - 0) == k + 1;
  }

  /** All six attempts with request `req`, starting after `tr`, would be
      rate-limited. */
  predicate Exhausted(service: Service, tr: Trace, req: Request) {
    forall a :: 0 <= a < MaxRetries ==> RateLimitedAt(service, |tr.requests|, req, a)
  }

  /** The sleeps of a page whose six calls, the first being call `n`, are
      all rate-limited. */
  function ExhaustedSleeps(n: nat): seq<Pause> {
    [Pause(n + 1, 1), Pause(n + 2, 2), Pause(n + 3, 4), Pause(n + 4, 8), Pause(n + 5, 16), Pause(n + 6, 32)]
  }

  /** The six backoff sleeps of a page from call `n` on, 63 seconds in all. */
  lemma SixBackoffs(n: nat)
    ensures Backoffs(n + 1, 0, MaxRetries) == ExhaustedSleeps(n)
    ensures Seconds(ExhaustedSleeps(n)) == 63
  {
    BackoffsSum(n + 1, 0, MaxRetries);
    assert Backoffs(n + 1, 0, MaxRetries) == ExhaustedSleeps(n);
  }

  /** A page rate-limited on all six attempts sends its request six times,
      sleeps 1, 2, 4, 8, 16 and 32 seconds, one after each call (63 in all,
      the last one after the final call), and is dropped: nothing appended,
      nothing raised. */
  lemma ExhaustedPageDropped(service: Service, tr: Trace, req: Request)
    requires Exhausted(service, tr, req)
    ensures var r := Attempts(service, tr, req, 0);
      r.verdict == Dropped &&
      r.trace.requests == tr.requests + Repeat(req, MaxRetries) &&
      r.trace.sleeps == tr.sleeps + ExhaustedSleeps(|tr.requests|) &&
      Seconds(r.trace.sleeps[|tr.sleeps|..]) == 63
  {
    var n := |tr.requests|;
    LeadingRateLimitsIs(service, n, req, 0, MaxRetries);
    AttemptsIsClosedRun(service, tr, req, 0);
    SixBackoffs(n);
    assert (tr.sleeps + ExhaustedSleeps(n))[|tr.sleeps|..] == ExhaustedSleeps(n);
  }

  /** Conversely, a page is dropped only when all six attempts were
      rate-limited. */
  lemma DroppedOnlyWhenExhausted(service: Service, tr: Trace, req: Request)
    requires Attempts(service, tr, req, 0).verdict == Dropped
    ensures Exhausted(service, tr, req)
  {
    AttemptsIsClosedRun(service, tr, req, 0);
    LeadingRateLimitsSpec(service, |tr.requests|, req, 0);
  }

  // ---------------------------------------------------------------------
  // Properties of a whole run

  /** Pages are attempted strictly in input order: going from page `k` to
      page `k + 1` only appends requests for page `k`, at most six of them,
      and at least one when page `k` is reached. */
  lemma RequestsInPageOrder(service: Service, tr0: Trace, pages: seq<string>, k: nat)
    requires k < |pages|
    ensures var a := Before(Step(service), tr0, pages, k).trace;
            var b := Before(Step(service), tr0, pages, k + 1).trace;
      a.requests <= b.requests && |b.requests| - |a.requests| <= MaxRetries &&
      (forall q :: |a.requests| <= q < |b.requests| ==> b.requests[q] == BuildRequest(pages[k])) &&
      (Reached(Step(service), tr0, pages, k) ==> |b.requests| > |a.requests|)
  {
    BeforeNext(Step(service), tr0, pages, k);
    PageAttemptBounds(service, Before(Step(service), tr0, pages, k).trace, BuildRequest(pages[k]));
  }

  /** An exception other than a rate-limit error on attempt `a` of page `k`
      ends the whole call: it escapes `summarize_text`, no later attempt or
      page follows, and the effects end with that page's `a + 1` calls and
      the `a` backoff sleeps before the last one. */
  lemma OtherErrorStopsRun(service: Service, tr0: Trace, pages: seq<string>, k: nat, a: nat, m: string)
    requires k < |pages| && Reached(Step(service), tr0, pages, k) && a < MaxRetries
    requires var b := Before(Step(service), tr0, pages, k).trace;
      (forall j :: 0 <= j < a ==> RateLimitedAt(service, |b.requests|, BuildRequest(pages[k]), j)) &&
      service(|b.requests| + a, BuildRequest(pages[k])) == Raised(OtherError(m))
    ensures var b := Before(Step(service), tr0, pages, k).trace;
            var run := Summarize(Step(service), tr0, pages);
      ResultOf(run) == Propagated(OtherError(m)) &&
      run.trace.requests == b.requests + Repeat(BuildRequest(pages[k]), a + 1) &&
      run.trace.sleeps == b.sleeps + Backoffs(|b.requests| + 1, 0, a)
  {
    var b := Before(Step(service), tr0, pages, k).trace;
    var r := Attempts(service, b, BuildRequest(pages[k]), 0);
    OtherErrorEndsPage(service, b, BuildRequest(pages[k]), a, m);
    assert Step(service)(b, pages[k]) == r;
    PageAborted(Step(service), tr0, pages, k, OtherError(m));
  }

  /** An exhausted page is skipped, not fatal: the run goes on to the next
      page with nothing appended for it. */
  lemma ExhaustedPageSkipped(service: Service, tr0: Trace, pages: seq<string>, k: nat)
    requires k < |pages| && Reached(Step(service), tr0, pages, k)
    requires Exhausted(service, Before(Step(service), tr0, pages, k).trace, BuildRequest(pages[k]))
    ensures Reached(Step(service), tr0, pages, k + 1)
    ensures Before(Step(service), tr0, pages, k + 1).responses == Before(Step(service), tr0, pages, k).responses
  {
    BeforeNext(Step(service), tr0, pages, k);
    ExhaustedPageDropped(service, Before(Step(service), tr0, pages, k).trace, BuildRequest(pages[k]));
  }

  /** A run that ends normally returns one summary per page exactly when no
      page was rate-limited on all six attempts. */
  lemma FullLengthIffNoneExhausted(service: Service, tr0: Trace, pages: seq<string>)
    requires Summarize(Step(service), tr0, pages).status.Running?
    ensures |Summarize(Step(service), tr0, pages).responses| == |pages| <==>
      forall k :: 0 <= k < |pages| ==>
        !Exhausted(service, Before(Step(service), tr0, pages, k).trace, BuildRequest(pages[k]))
  {
    FullLengthIff(Step(service), tr0, pages);
    forall k | 0 <= k < |pages|
      ensures VerdictAt(Step(service), tr0, pages, k).Kept? <==>
              !Exhausted(service, Before(Step(service), tr0, pages, k).trace, BuildRequest(pages[k]))
    {
      var tr := Before(Step(service), tr0, pages, k).trace;
      var req := BuildRequest(pages[k]);
      RunningThroughout(Step(service), tr0, pages, k);
      if Exhausted(service, tr, req) {
        ExhaustedPageDropped(service, tr, req);
      } else if Attempts(service, tr, req, 0).verdict.Dropped? {
        DroppedOnlyWhenExhausted(service, tr, req);
      }
    }
  }

  /** A page's summary is the reply that ended its attempts with the
      surrounding whitespace removed, so it has none itself; stripping
      decides nothing about whether a page is kept. */
  lemma SummaryTrimmed(service: Service, tr: Trace, page: string)
    ensures var raw := Attempts(service, tr, BuildRequest(page), 0);
            var v := Step(service)(tr, page).verdict;
      (v.Kept? <==> raw.verdict.Kept?) &&
      (v.Kept? ==> v.summary == Strip(raw.verdict.summary) && Trimmed(v.summary))
  {
    var raw := Attempts(service, tr, BuildRequest(page), 0);
    if raw.verdict.Kept? {
      StripFlanked(raw.verdict.summary);
    }
  }

  /** With a service that always replies, a page takes one call, no sleep,
      and keeps the stripped reply. */
  lemma AlwaysRepliesPage(service: Service, tr: Trace, page: string)
    requires Answer(service, tr, BuildRequest(page)).Completion?
    ensures Step(service)(tr, page) ==
      PageRun(Sent(tr, BuildRequest(page)), Kept(Strip(Answer(service, tr, BuildRequest(page)).text)))
  {
    AttemptOnce(service, tr, BuildRequest(page), 0);
  }


  /** With a service that always replies, the run ends normally, sends one
      request per page in page order, and never sleeps. */
  lemma {:induction false} AlwaysRepliesEffects(service: Service, tr0: Trace, pages: seq<string>)
    requires AlwaysReplies(service)
    ensures var run := Summarize(Step(service), tr0, pages);
      run.status == Running && run.trace.sleeps == tr0.sleeps &&
      run.trace.requests == tr0.requests + PageRequests(BuildRequest, pages)
    decreases |pages|
  {
    if pages != [] {
      var n := |pages| - 1;
      var pre := pages[..n];
      AlwaysRepliesEffects(service, tr0, pre);
      var prev := Summarize(Step(service), tr0, pre);
      AlwaysRepliesPage(service, prev.trace, pages[n]);
      assert PageRequests(BuildRequest, pages) == PageRequests(BuildRequest, pre) + [BuildRequest(pages[n])];
      AppendAssociative(tr0.requests, PageRequests(BuildRequest, pre), [BuildRequest(pages[n])]);
    }
  }

  /** With a service that always replies, page `k` is kept with the
      stripped answer to the k-th call of the run. */
  lemma AlwaysRepliesAt(service: Service, tr0: Trace, pages: seq<string>, k: nat)
    requires AlwaysReplies(service) && k < |pages|
    ensures VerdictAt(Step(service), tr0, pages, k) ==
            Kept(Strip(service(|tr0.requests| + k, BuildRequest(pages[k])).text))
  {
    var b := Before(Step(service), tr0, pages, k).trace;
    var req := BuildRequest(pages[k]);
    AlwaysRepliesEffects(service, tr0, pages[..k]);
    assert |b.requests| == |tr0.requests| + k;
    AttemptOnce(service, b, req, 0);
  }

  /** With a service that always replies, the run returns one summary per
      page, the k-th being the stripped reply to page k's request, which is
      the k-th call of the run. */
  lemma AlwaysRepliesRun(service: Service, tr0: Trace, pages: seq<string>)
    requires AlwaysReplies(service)
    ensures var responses := Summarize(Step(service), tr0, pages).responses;
      |responses| == |pages| &&
      forall k :: 0 <= k < |pages| ==>
        responses[k] == Strip(service(|tr0.requests| + k, BuildRequest(pages[k])).text)
  {
    AlwaysRepliesEffects(service, tr0, pages);
    forall tr, page
      ensures !Step(service)(tr, page).verdict.Dropped?
    {
      AlwaysRepliesPage(service, tr, page);
    }
    NoDropsAligned(Step(service), tr0, pages);
    forall k | 0 <= k < |pages|
      ensures VerdictAt(Step(service), tr0, pages, k) ==
              Kept(Strip(service(|tr0.requests| + k, BuildRequest(pages[k])).text))
    {
      AlwaysRepliesAt(service, tr0, pages, k);
    }
  }
}
