/** Concrete runs of the page: example exchanges with the analysis service,
    and the runs that show which fields a transition keeps. */
module Scenarios {
  import opened Wrappers
  import opened Session
  import opened MetricFormatter
  import opened Presentation
  import opened Lifecycle

  /** A 2xx response `{"performance": 90, "ttfb": 120}` is stored verbatim and
      drawn as two cards with the table's titles, in body order. */
  lemma OkResponseShowsCards(s: State)
    ensures var body := [Entry("performance", Number(90.0)), Entry("ttfb", Number(120.0))];
      var r := Analyze(s, Ok(body));
      && r.status == Success
      && r.metrics == Some(body)
      && r.error == None
      && Render(r) == MetricsPanel([Card("Performance Score", Number(90.0)),
                                    Card("Time to First Byte (TTFB)", Number(120.0))])
  {
  }

  /** A non-ok response `{"error": "Invalid URL"}` shows the server's message. */
  lemma ServerMessageShown(s: State)
    ensures var r := Analyze(s, NotOk(Some("Invalid URL")));
      r.status == Failure && r.error == Some("Invalid URL") && Render(r) == ErrorText("Invalid URL")
  {
  }

  /** A non-ok response with a missing or empty `error` field, and a thrown
      failure of any kind, all show the fixed fallback message. */
  lemma FallbackMessageShown(s: State)
    ensures Analyze(s, NotOk(None)).status == Failure
    ensures Analyze(s, NotOk(None)).error == Some("Failed to analyze the website.")
    ensures Render(Analyze(s, NotOk(None))) == ErrorText("Failed to analyze the website.")
    ensures Analyze(s, NotOk(Some(""))).status == Failure
    ensures Analyze(s, NotOk(Some(""))).error == Some("Failed to analyze the website.")
    ensures Render(Analyze(s, NotOk(Some("")))) == ErrorText("Failed to analyze the website.")
    ensures Analyze(s, Thrown).status == Failure
    ensures Analyze(s, Thrown).error == Some("Failed to analyze the website.")
    ensures Render(Analyze(s, Thrown)) == ErrorText("Failed to analyze the website.")
  {
  }

  /** Even with one request at a time, a failure keeps the metrics of the last
      success: the record holds both metrics and an error (the screen shows only
      the error). */
  lemma FailureKeepsStaleMetrics(body: Metrics)
    ensures var w := Step(Step(Step(Step(Boot, Submit), Resolve(Ok(body))), Submit), Resolve(Thrown));
      && w.session.status == Failure
      && w.session.metrics == Some(body)
      && w.session.error == Some(FallbackMessage)
  {
  }

  /** With overlapping submissions, a success can land on the error of the other
      request's failure: the record holds both (the screen shows only the cards). */
  lemma SuccessKeepsStaleError(body: Metrics)
    ensures var w := Step(Step(Step(Step(Boot, Submit), Submit), Resolve(Thrown)), Resolve(Ok(body)));
      && w.session.status == Success
      && w.session.metrics == Some(body)
      && w.session.error == Some(FallbackMessage)
      && w.inFlight == 0
  {
  }

  /** With overlapping submissions the status can move from success straight to
      failure, a move outside the four-status cycle. */
  lemma SuccessToFailureWithoutSubmit(body: Metrics)
    ensures var before := Step(Step(Step(Boot, Submit), Submit), Resolve(Ok(body)));
      var after := Step(before, Resolve(Thrown));
      && before.session.status == Success
      && after.session.status == Failure
      && !CycleStep(before.session.status, after.session.status)
  {
  }
}
