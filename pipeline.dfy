/** The outer loop both `summarize_text` versions share: walk the pages in
    order, let the page step (its retry policy) settle each one, append what
    it kept, and stop at the first exception that escapes a page. The page
    step is a parameter; `SummarizeUtils` and `Helper` supply theirs. */
module Pipeline {
  import opened OpenAI

  /** How one page ended: its summary was appended, it was given up on
      without a trace in the output, or an exception escaped. */
  datatype PageVerdict = Kept(summary: string) | Dropped | Aborted(error: ApiError)

  datatype PageRun = PageRun(trace: Trace, verdict: PageVerdict)

  /** A retry policy: from the effects so far and a page, the effects after
      the page's attempts and how the page ended. */
  type PageStep = (Trace, string) -> PageRun

  datatype Status = Running | Stopped(error: ApiError)

  /** The state of `summarize_text` between pages: effects so far, the
      `responses` list, and whether an exception is propagating. */
  datatype Run = Run(trace: Trace, responses: seq<string>, status: Status)

  /** What the caller of `summarize_text` sees: the list, or the exception. */
  datatype RunResult = Returned(responses: seq<string>) | Propagated(error: ApiError)

  function ResultOf(run: Run): RunResult {
    match run.status
    case Running => Returned(run.responses)
    case Stopped(e) => Propagated(e)
  }

  /** One iteration of `for page in text`. */
  function Continue(step: PageStep, run: Run, page: string): Run {
    if run.status.Stopped? then run
    else
      var p := step(run.trace, page);
      match p.verdict
      case Kept(s) => Run(p.trace, run.responses + [s], Running)
      case Dropped => Run(p.trace, run.responses, Running)
      case Aborted(e) => Run(p.trace, run.responses, Stopped(e))
  }

  /** The run over `pages` from the effects `tr0`: never more summaries than
      pages, since each page adds at most one. */
  function Summarize(step: PageStep, tr0: Trace, pages: seq<string>): (run: Run)
    ensures |run.responses| <= |pages|
    decreases |pages|
  {
    if pages == [] then Run(tr0, [], Running)
    else Continue(step, Summarize(step, tr0, pages[..|pages| - 1]), pages[|pages| - 1])
  }

  lemma AppendAssociative<T>(a: seq<T>, b: seq<T>, c: seq<T>)
    ensures (a + b) + c == a + (b + c)
  {
  }

  /** One request per page, in page order, as `build` makes it from the page. */
  function PageRequests(build: string -> Request, pages: seq<string>): (rs: seq<Request>)
    ensures |rs| == |pages|
    ensures forall k :: 0 <= k < |pages| ==> rs[k] == build(pages[k])
  {
    if pages == [] then [] else PageRequests(build, pages[..|pages| - 1]) + [build(pages[|pages| - 1])]
  }

  /** The run as it stands when page `k` is reached. */
  function Before(step: PageStep, tr0: Trace, pages: seq<string>, k: nat): Run
    requires k <= |pages|
  {
    Summarize(step, tr0, pages[..k])
  }

  /** No exception has escaped before page `k`, so page `k` is attempted. */
  predicate Reached(step: PageStep, tr0: Trace, pages: seq<string>, k: nat)
    requires k <= |pages|
  {
    Before(step, tr0, pages, k).status.Running?
  }

  /** How page `k` ends when it is reached. */
  function VerdictAt(step: PageStep, tr0: Trace, pages: seq<string>, k: nat): PageVerdict
    requires k < |pages|
  {
    step(Before(step, tr0, pages, k).trace, pages[k]).verdict
  }

  lemma BeforeNext(step: PageStep, tr0: Trace, pages: seq<string>, k: nat)
    requires k < |pages|
    ensures Before(step, tr0, pages, k + 1) == Continue(step, Before(step, tr0, pages, k), pages[k])
  {
    assert pages[..k + 1][..k] == pages[..k];
  }

  lemma BeforeOfPrefix(step: PageStep, tr0: Trace, pages: seq<string>, n: nat, k: nat)
    requires k <= n <= |pages|
    ensures Before(step, tr0, pages[..n], k) == Before(step, tr0, pages, k)
  {
    assert pages[..n][..k] == pages[..k];
  }

  /** Once an exception escapes page `k - 1`, no later page is attempted: the
      run ends with the effects, list and exception it had then. */
  lemma {:induction false} StoppedIsFinal(step: PageStep, tr0: Trace, pages: seq<string>, k: nat)
    requires k <= |pages|
    requires Before(step, tr0, pages, k).status.Stopped?
    ensures Summarize(step, tr0, pages) == Before(step, tr0, pages, k)
    decreases |pages|
  {
    if k == |pages| {
      assert pages[..k] == pages;
    } else {
      var n := |pages| - 1;
      BeforeOfPrefix(step, tr0, pages, n, k);
      StoppedIsFinal(step, tr0, pages[..n], k);
      assert pages[..n][..n] == pages[..n];
    }
  }

  /** When page `k` is reached and an exception escapes it, that exception
      ends the run with the effects the page left behind. */
  lemma PageAborted(step: PageStep, tr0: Trace, pages: seq<string>, k: nat, e: ApiError)
    requires k < |pages| && Reached(step, tr0, pages, k)
    requires VerdictAt(step, tr0, pages, k) == Aborted(e)
    ensures Summarize(step, tr0, pages).trace == step(Before(step, tr0, pages, k).trace, pages[k]).trace
    ensures ResultOf(Summarize(step, tr0, pages)) == Propagated(e)
  {
    BeforeNext(step, tr0, pages, k);
    StoppedIsFinal(step, tr0, pages, k + 1);
  }

  /** A run that ends normally reached every page and none of them raised. */
  lemma RunningThroughout(step: PageStep, tr0: Trace, pages: seq<string>, k: nat)
    requires Summarize(step, tr0, pages).status.Running?
    requires k < |pages|
    ensures Reached(step, tr0, pages, k) && !VerdictAt(step, tr0, pages, k).Aborted?
  {
    if !Reached(step, tr0, pages, k) {
      StoppedIsFinal(step, tr0, pages, k);
    } else {
      BeforeNext(step, tr0, pages, k);
      if VerdictAt(step, tr0, pages, k).Aborted? {
        StoppedIsFinal(step, tr0, pages, k + 1);
      }
    }
  }

  /** The indices of the pages whose summaries were appended, in the order
      they were appended. */
  function KeptPages(step: PageStep, tr0: Trace, pages: seq<string>): seq<nat>
    decreases |pages|
  {
    if pages == [] then []
    else
      var n := |pages| - 1;
      var prev := KeptPages(step, tr0, pages[..n]);
      if Reached(step, tr0, pages, n) && VerdictAt(step, tr0, pages, n).Kept? then prev + [n] else prev
  }

  /** Order preservation: the j-th summary returned is the one kept for page
      KeptPages[j]; these page indices strictly increase; and every page that
      was reached and kept is among them. */
  lemma {:induction false} ResponsesFollowPages(step: PageStep, tr0: Trace, pages: seq<string>)
    ensures var run := Summarize(step, tr0, pages);
            var idx := KeptPages(step, tr0, pages);
      |idx| == |run.responses| &&
      (forall j :: 0 <= j < |idx| ==>
         idx[j] < |pages| && Reached(step, tr0, pages, idx[j]) &&
         VerdictAt(step, tr0, pages, idx[j]) == Kept(run.responses[j])) &&
      (forall j1, j2 :: 0 <= j1 < j2 < |idx| ==> idx[j1] < idx[j2]) &&
      (forall k :: (0 <= k < |pages| && Reached(step, tr0, pages, k) &&
                    VerdictAt(step, tr0, pages, k).Kept?) ==> k in idx)
    decreases |pages|
  {
    if pages != [] {
      var n := |pages| - 1;
      var pre := pages[..n];
      ResponsesFollowPages(step, tr0, pre);
      BeforeNext(step, tr0, pages, n);
      assert pages[..n + 1] == pages;
      var prevRun := Summarize(step, tr0, pre);
      var prevIdx := KeptPages(step, tr0, pre);
      assert Before(step, tr0, pages, n) == prevRun;
      forall k | 0 <= k < n
        ensures Reached(step, tr0, pre, k) == Reached(step, tr0, pages, k)
        ensures VerdictAt(step, tr0, pre, k) == VerdictAt(step, tr0, pages, k)
      {
        BeforeOfPrefix(step, tr0, pages, n, k);
      }
    }
  }

  /** A run that ends normally returns one summary per page exactly when
      every page was kept. */
  lemma {:induction false} FullLengthIff(step: PageStep, tr0: Trace, pages: seq<string>)
    requires Summarize(step, tr0, pages).status.Running?
    ensures |Summarize(step, tr0, pages).responses| == |pages| <==>
            forall k :: 0 <= k < |pages| ==> VerdictAt(step, tr0, pages, k).Kept?
    decreases |pages|
  {
    if pages != [] {
      var n := |pages| - 1;
      var pre := pages[..n];
      BeforeNext(step, tr0, pages, n);
      assert pages[..n + 1] == pages;
      assert Before(step, tr0, pages, n) == Summarize(step, tr0, pre);
      RunningThroughout(step, tr0, pages, n);
      FullLengthIff(step, tr0, pre);
      forall k | 0 <= k < n
        ensures VerdictAt(step, tr0, pre, k) == VerdictAt(step, tr0, pages, k)
      {
        BeforeOfPrefix(step, tr0, pages, n, k);
      }
    }
  }

  /** With a retry policy that never gives up on a page silently, a run that
      ends normally returns one summary per page, the k-th being the one kept
      for page k. */
  lemma {:induction false} NoDropsAligned(step: PageStep, tr0: Trace, pages: seq<string>)
    requires forall tr, page :: !step(tr, page).verdict.Dropped?
    requires Summarize(step, tr0, pages).status.Running?
    ensures var run := Summarize(step, tr0, pages);
      |run.responses| == |pages| &&
      forall k :: 0 <= k < |pages| ==> VerdictAt(step, tr0, pages, k) == Kept(run.responses[k])
    decreases |pages|
  {
    if pages != [] {
      var n := |pages| - 1;
      var pre := pages[..n];
      BeforeNext(step, tr0, pages, n);
      assert pages[..n + 1] == pages;
      assert Before(step, tr0, pages, n) == Summarize(step, tr0, pre);
      RunningThroughout(step, tr0, pages, n);
      NoDropsAligned(step, tr0, pre);
      forall k | 0 <= k < n
        ensures VerdictAt(step, tr0, pre, k) == VerdictAt(step, tr0, pages, k)
      {
        BeforeOfPrefix(step, tr0, pages, n, k);
      }
    }
  }
}
