/** The part of the OpenAI completions API both summarisers use: the request
    `get_gpt_response` builds, the ways a call can end, and the effects a run
    has on the world (requests sent, and sleeps placed among them). The
    remote service itself is an oracle: the answer to the n-th request of a
    run may be anything. */
module OpenAI {

  /** The keyword arguments of `openai.completions.create`. The sampling
      settings are numbers in the source; every one of them is a whole number
      there, so `int` holds them exactly. */
  datatype Request = Request(
    model: string,
    prompt: string,
    temperature: int,
    maxTokens: int,
    topP: int,
    frequencyPenalty: int,
    presencePenalty: int)

  /** What `openai.RateLimitError` stands for, and every other exception the
      call can raise (authentication, malformed request, network). */
  datatype ApiError = RateLimitError | OtherError(message: string)

  /** One call returns the text of the first choice, or raises. */
  datatype Outcome = Completion(text: string) | Raised(error: ApiError)

  predicate IsRateLimited(o: Outcome) {
    o == Raised(RateLimitError)
  }

  /** The remote service: its answer to the n-th request of a run (counted
      from 0), which may depend on the request. */
  type Service = (nat, Request) -> Outcome

  /** A service that answers every call with a completion. */
  ghost predicate AlwaysReplies(service: Service) {
    forall n, req :: service(n, req).Completion?
  }

  /** One `sleep(seconds)`, taken when `calls` requests of the run had been
      sent: after call `calls - 1` and before call `calls`. */
  datatype Pause = Pause(calls: nat, seconds: nat)

  /** The observable effects of a run so far: every request sent, in order,
      and every sleep, in order, each placed between the calls it fell
      between. */
  datatype Trace = Trace(requests: seq<Request>, sleeps: seq<Pause>)

  /** The service's answer to the next request sent after `tr`. */
  function Answer(service: Service, tr: Trace, req: Request): Outcome {
    service(|tr.requests|, req)
  }

  function Sent(tr: Trace, req: Request): Trace {
    tr.(requests := tr.requests + [req])
  }

  function Slept(tr: Trace, seconds: nat): Trace {
    tr.(sleeps := tr.sleeps + [Pause(|tr.requests|, seconds)])
  }

  /** Sleeping and calling do not commute: the trace tells a sleep before a
      call from one after it. */
  lemma SleepBeforeCallDiffers(tr: Trace, req: Request, seconds: nat)
    ensures Slept(Sent(tr, req), seconds) != Sent(Slept(tr, seconds), req)
  {
    assert Slept(Sent(tr, req), seconds).sleeps[|tr.sleeps|].calls == |tr.requests| + 1;
    assert Sent(Slept(tr, seconds), req).sleeps[|tr.sleeps|].calls == |tr.requests|;
  }

  /** The seconds slept over a sequence of sleeps. */
  function Seconds(ps: seq<Pause>): nat {
    if ps == [] then 0 else ps[0].seconds + Seconds(ps[1..])
  }

  const Model := "gpt-3.5-turbo-instruct"

  const PromptPrefix := "Summarize the content you are given for a high school student. The text is "

  /** The f-string prompt: the fixed instruction followed by the page text
      verbatim, so the page text can be read back from the prompt. */
  function Prompt(text: string): (p: string)
    ensures |p| == |PromptPrefix| + |text|
    ensures p[..|PromptPrefix|] == PromptPrefix && p[|PromptPrefix|..] == text
  {
    PromptPrefix + text
  }

  /** `window - len(text) // 3`: the window less a third of the character
      count rounded down, with no floor. Stated without division: three times
      what is taken off the window is at most the length and within 3 of it. */
  function Budget(window: int, text: string): (b: int)
    ensures 3 * (window - b) <= |text| < 3 * (window - b) + 3
  {
    window - |text| / 3
  }

  /** The request both versions build for one page, deterministic sampling
      (temperature 0, top_p 1, no penalties) and the given context window. */
  function SummaryRequest(text: string, window: int): Request {
    Request(Model, Prompt(text), 0, Budget(window, text), 1, 0, 0)
  }

  /** Two pages that give the same request are the same page. */
  lemma SummaryRequestInjective(t1: string, t2: string, window: int)
    requires SummaryRequest(t1, window) == SummaryRequest(t2, window)
    ensures t1 == t2
  {
    assert t1 == Prompt(t1)[|PromptPrefix|..];
  }

  /** The process's view of the world: the remote service, the requests it
      has been sent, and the time slept. `create` and `sleep` are the two
      effects the summarisers have. */
  class Environment {
    const service: Service
    var requests: seq<Request>
    var sleeps: seq<Pause>

    constructor (service: Service)
      ensures this.service == service
      ensures requests == [] && sleeps == []
    {
      this.service := service;
      requests := [];
      sleeps := [];
    }

    function CurrentTrace(): Trace
      reads this
    {
      Trace(requests, sleeps)
    }

    /** `openai.completions.create(...)`: sends `req` and returns the
        service's answer to it. */
    method Create(req: Request) returns (o: Outcome)
      modifies this`requests
      ensures CurrentTrace() == Sent(old(CurrentTrace()), req)
      ensures o == Answer(service, old(CurrentTrace()), req)
    {
      o := service(|requests|, req);
      requests := requests + [req];
    }

    /** `time.sleep(seconds)`: records the duration and how many calls
        came before it. */
    method Sleep(seconds: nat)
      modifies this`sleeps
      ensures CurrentTrace() == Slept(old(CurrentTrace()), seconds)
    {
      sleeps := sleeps + [Pause(|requests|, seconds)];
    }
  }
}
