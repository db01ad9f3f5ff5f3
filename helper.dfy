/** `helper.py`: the legacy summariser. A page whose call raises anything is
    given one second chance after a 60-second sleep; a second failure
    escapes. Replies are kept as the service sent them. */
module Helper {
  import opened OpenAI
  import opened Pipeline

  /** The context window this version subtracts the page estimate from. */
  const ContextWindow: int := 8192

  /** The pause before the second call for a page, in seconds. */
  const RetryDelay: nat := 60

  /** The request `get_gpt_response(text)` sends: the same prompt as the
      current version with a larger window. The token budget is not floored:
      it is zero or negative exactly from 24576 characters on. */
  function BuildRequest(text: string): (r: Request)
    ensures r.model == Model && r.prompt == Prompt(text) && r.maxTokens == Budget(ContextWindow, text)
    ensures r.temperature == 0 && r.topP == 1 && r.frequencyPenalty == 0 && r.presencePenalty == 0
    ensures |PromptPrefix| <= |r.prompt| && r.prompt[|PromptPrefix|..] == text
    ensures r.maxTokens <= 0 <==> |text| >= 24576
  {
    SummaryRequest(text, ContextWindow)
  }

  /** `get_gpt_response(text)`: one call to the service with the page's
      request; a reply comes back unstripped. */
  method GetGptResponse(env: Environment, text: string) returns (o: Outcome)
    modifies env`requests
    ensures env.CurrentTrace() == Sent(old(env.CurrentTrace()), BuildRequest(text))
    ensures o == Answer(env.service, old(env.CurrentTrace()), BuildRequest(text))
  {
    o := env.Create(BuildRequest(text));
  }

  /** The `try`/`except Exception` around one page whose request is `req`,
      from the effects `tr`: a reply is kept; any exception, a rate-limit
      error included, is followed by the sleep and a second call, whose
      reply is kept and whose exception escapes. Never gives up silently,
      and sends one or two requests. */
  function PageAttempt(service: Service, tr: Trace, req: Request): (r: PageRun)
    ensures !r.verdict.Dropped?
    ensures |tr.requests| + 1 <= |r.trace.requests| <= |tr.requests| + 2
  {
    var sent := Sent(tr, req);
    match Answer(service, tr, req)
    case Completion(s) => PageRun(sent, Kept(s))
    case Raised(_) =>
      var waited := Slept(sent, RetryDelay);
      match Answer(service, waited, req)
      case Completion(s) => PageRun(Sent(waited, req), Kept(s))
      case Raised(e) => PageRun(Sent(waited, req), Aborted(e))
  }

  /** The retry policy of this version, as a page step for the page loop. */
  function Step(service: Service): PageStep {
    (tr: Trace, page: string) => PageAttempt(service, tr, BuildRequest(page))
  }

  /** The body of `for page in text`. An exception from the second call is
      returned as the page's verdict for the caller to propagate. The
      effects and the verdict are those of PageAttempt. */
  method RetryPage(env: Environment, page: string) returns (verdict: PageVerdict)
    modifies env
    ensures PageAttempt(env.service, old(env.CurrentTrace()), BuildRequest(page)) == PageRun(env.CurrentTrace(), verdict)
  {
    var reply := GetGptResponse(env, page);
    if reply.Completion? {
      return Kept(reply.text);
    }
    env.Sleep(RetryDelay);
    reply := GetGptResponse(env, page);
    if reply.Completion? {
      verdict := Kept(reply.text);
    } else {
      verdict := Aborted(reply.error);
    }
  }

  /** `summarize_text(text)`: the page loop. The effects and the result are
      those of the page loop with this version's retry policy. */
  method SummarizeText(env: Environment, text: seq<string>) returns (result: RunResult)
    modifies env
    ensures env.CurrentTrace() == Summarize(Step(env.service), old(env.CurrentTrace()), text).trace
    ensures result == ResultOf(Summarize(Step(env.service), old(env.CurrentTrace()), text))
  {
    ghost var start := env.CurrentTrace();
    var responses: seq<string> := [];
    for p := 0 to |text|
      invariant Summarize(Step(env.service), start, text[..p]) == Run(env.CurrentTrace(), responses, Running)
    {
      ghost var before := env.CurrentTrace();
      var verdict := RetryPage(env, text[p]);
      BeforeNext(Step(env.service), start, text, p);
      assert Step(env.service)(before, text[p]) == PageRun(env.CurrentTrace(), verdict);
      match verdict
      case Kept(summary) =>
        responses := responses + [summary];
      case Dropped =>
      case Aborted(e) =>
        PageAborted(Step(env.service), start, text, p, e);
        return Propagated(e);
    }
    assert text[..|text|] == text;
    result := Returned(responses);
  }

  // ---------------------------------------------------------------------
  // Properties of one page

  /** A first call that succeeds is the page's only call: no sleep, and the
      reply is kept verbatim. */
  lemma FirstReplyKept(service: Service, tr: Trace, req: Request, s: string)
    requires Answer(service, tr, req) == Completion(s)
    ensures var r := PageAttempt(service, tr, req);
      r.verdict == Kept(s) && r.trace.requests == tr.requests + [req] && r.trace.sleeps == tr.sleeps
  {
  }

  /** A first call that raises anything is followed by exactly one sleep of
      60 seconds and exactly one more call with the same request; the page
      ends as that second call does: its reply kept verbatim, or its
      exception escaping. */
  lemma FailureThenRetry(service: Service, tr: Trace, req: Request, e: ApiError)
    requires Answer(service, tr, req) == Raised(e)
    ensures var r := PageAttempt(service, tr, req);
            var second := service(|tr.requests| + 1, req);
      r.trace.requests == tr.requests + [req, req] && r.trace.sleeps == tr.sleeps + [Pause(|tr.requests| + 1, 60)] &&
      r.verdict == (match second case Completion(s) => Kept(s) case Raised(e2) => Aborted(e2))
  {
    assert |Slept(Sent(tr, req), RetryDelay).requests| == |tr.requests| + 1;
  }

  /** Each page makes one or two calls, all with its request; it sleeps
      once, for 60 seconds, exactly when it made two; and an exception
      escapes it only when both calls raised, the second one's escaping. */
  lemma PageAttemptBounds(service: Service, tr: Trace, req: Request)
    ensures var r := PageAttempt(service, tr, req);
            var n := |tr.requests|;
            var calls := |r.trace.requests| - n;
      tr.requests <= r.trace.requests && 1 <= calls <= 2 &&
      (forall q :: n <= q < |r.trace.requests| ==> r.trace.requests[q] == req) &&
      r.trace.sleeps == tr.sleeps + (if calls == 2 then [Pause(n + 1, RetryDelay)] else []) &&
      (calls == 2 <==> service(n, req).Raised?) &&
      (r.verdict.Aborted? ==> service(n, req).Raised? && service(n + 1, req) == Raised(r.verdict.error))
  {
    var n := |tr.requests|;
    match Answer(service, tr, req)
    case Completion(s) =>
      FirstReplyKept(service, tr, req, s);
    case Raised(e) =>
      FailureThenRetry(service, tr, req, e);
  }

  // ---------------------------------------------------------------------
  // Properties of a whole run

  /** Pages are attempted strictly in input order: going from page `k` to
      page `k + 1` only appends requests for page `k`, one or two of them
      when page `k` is reached. */
  lemma RequestsInPageOrder(service: Service, tr0: Trace, pages: seq<string>, k: nat)
    requires k < |pages|
    ensures var a := Before(Step(service), tr0, pages, k).trace;
            var b := Before(Step(service), tr0, pages, k + 1).trace;
      a.requests <= b.requests && |b.requests| - |a.requests| <= 2 &&
      (forall q :: |a.requests| <= q < |b.requests| ==> b.requests[q] == BuildRequest(pages[k])) &&
      (Reached(Step(service), tr0, pages, k) ==> |b.requests| > |a.requests|)
  {
    BeforeNext(Step(service), tr0, pages, k);
    PageAttemptBounds(service, Before(Step(service), tr0, pages, k).trace, BuildRequest(pages[k]));
  }

  /** A page whose two calls both raise ends the run: its second exception
      escapes `summarize_text`, no later page is attempted, and the effects
      end with that page's two calls and the sleep between them. */
  lemma TwoFailuresStopRun(service: Service, tr0: Trace, pages: seq<string>, k: nat, e: ApiError)
    requires k < |pages| && Reached(Step(service), tr0, pages, k)
    requires Answer(service, Before(Step(service), tr0, pages, k).trace, BuildRequest(pages[k])).Raised?
    requires service(|Before(Step(service), tr0, pages, k).trace.requests| + 1, BuildRequest(pages[k])) == Raised(e)
    ensures var a := Before(Step(service), tr0, pages, k).trace;
            var run := Summarize(Step(service), tr0, pages);
      ResultOf(run) == Propagated(e) &&
      run.trace.requests == a.requests + [BuildRequest(pages[k]), BuildRequest(pages[k])] &&
      run.trace.sleeps == a.sleeps + [Pause(|a.requests| + 1, RetryDelay)]
  {
    var a := Before(Step(service), tr0, pages, k).trace;
    FailureThenRetry(service, a, BuildRequest(pages[k]), Answer(service, a, BuildRequest(pages[k])).error);
    PageAborted(Step(service), tr0, pages, k, e);
  }

  /** A run that returns normally returns one summary per page, in page
      order: the k-th is the reply that ended page k, kept verbatim. */
  lemma ReturnedRunAligned(service: Service, tr0: Trace, pages: seq<string>)
    requires Summarize(Step(service), tr0, pages).status.Running?
    ensures var run := Summarize(Step(service), tr0, pages);
      |run.responses| == |pages| &&
      forall k :: 0 <= k < |pages| ==> VerdictAt(Step(service), tr0, pages, k) == Kept(run.responses[k])
  {
    NoDropsAligned(Step(service), tr0, pages);
  }

  /** With a service that always replies, the run ends normally, sends one
      request per page in page order, and never sleeps. */
  lemma {:induction false} AlwaysRepliesEffects(service: Service, tr0: Trace, pages: seq<string>)
    requires AlwaysReplies(service)
    ensures var run := Summarize(Step(service), tr0, pages);
      run.status == Running && run.trace.sleeps == tr0.sleeps &&
      run.trace.requests == tr0.requests + PageRequests(BuildRequest, pages)
    decreases |pages|
  {
    if pages != [] {
      var n := |pages| - 1;
      var pre := pages[..n];
      AlwaysRepliesEffects(service, tr0, pre);
      var prev := Summarize(Step(service), tr0, pre);
      FirstReplyKept(service, prev.trace, BuildRequest(pages[n]), Answer(service, prev.trace, BuildRequest(pages[n])).text);
      assert PageRequests(BuildRequest, pages) == PageRequests(BuildRequest, pre) + [BuildRequest(pages[n])];
      AppendAssociative(tr0.requests, PageRequests(BuildRequest, pre), [BuildRequest(pages[n])]);
    }
  }

  /** With a service that always replies, the run returns one summary per
      page, the k-th being the reply, unstripped, to page k's request, which
      is the k-th call of the run. */
  lemma {:induction false} AlwaysRepliesRun(service: Service, tr0: Trace, pages: seq<string>)
    requires AlwaysReplies(service)
    ensures var responses := Summarize(Step(service), tr0, pages).responses;
      |responses| == |pages| &&
      forall k :: 0 <= k < |pages| ==>
        responses[k] == service(|tr0.requests| + k, BuildRequest(pages[k])).text
    decreases |pages|
  {
    if pages != [] {
      var n := |pages| - 1;
      var pre := pages[..n];
      AlwaysRepliesRun(service, tr0, pre);
      AlwaysRepliesEffects(service, tr0, pre);
      var prev := Summarize(Step(service), tr0, pre);
      FirstReplyKept(service, prev.trace, BuildRequest(pages[n]), Answer(service, prev.trace, BuildRequest(pages[n])).text);
      assert |prev.trace.requests| == |tr0.requests| + n;
    }
  }
}
