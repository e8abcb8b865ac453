/** `renderContent` and `renderMetrics` (src/App.js, lines 57-69 and 89-100) as a
    pure projection from the session record to one of four abstract views. */
module Presentation {
  import opened Session
  import opened MetricFormatter

  /** One metric card: its title and its raw value. */
  datatype Card = Card(title: string, value: Value)

  /** What the content area shows: nothing, the loader, the error paragraph, or
      the metrics grid. */
  datatype View = Blank | Loading | ErrorText(text: string) | MetricsPanel(cards: seq<Card>)

  /** The metrics grid: one card per entry, in entry order (`Object.entries(...).map`). */
  function Cards(entries: Metrics): (cards: seq<Card>)
    ensures |cards| == |entries|
    ensures forall i :: 0 <= i < |entries| ==>
              cards[i] == Card(FormatMetricLabel(entries[i].key), entries[i].value)
    decreases |entries|
  {
    if |entries| == 0 then []
    else [Card(FormatMetricLabel(entries[0].key), entries[0].value)] + Cards(entries[1..])
  }

  /** The states the page can draw: in the success case `Object.entries` needs an
      object, and a `null` metrics field would throw. */
  predicate Renderable(s: State) {
    s.status == Success ==> s.metrics.Some?
  }

  /** `renderContent`: the view is chosen by the status alone, and only the field
      belonging to that status is read. A failure with no message draws an empty
      paragraph. */
  function Render(s: State): (v: View)
    requires Renderable(s)
    ensures v.Blank? <==> s.status == Initial
    ensures v.Loading? <==> s.status == InProgress
    ensures v.ErrorText? <==> s.status == Failure
    ensures v.MetricsPanel? <==> s.status == Success
    ensures s.status == Failure ==> v.text == s.error.GetOr("")
    ensures s.status == Success ==>
              |v.cards| == |s.metrics.value|
              && forall i :: 0 <= i < |v.cards| ==>
                   v.cards[i].title == FormatMetricLabel(s.metrics.value[i].key)
                   && v.cards[i].value == s.metrics.value[i].value
  {
    match s.status
    case InProgress => Loading
    case Success => MetricsPanel(Cards(s.metrics.value))
    case Failure => ErrorText(s.error.GetOr(""))
    case Initial => Blank
  }

  /** Two states that agree on the status and on the one field that status
      reads draw the same view; in particular the URL, the stale metrics of a
      failure and the stale error of a success are never shown. */
  lemma RenderReadsOnlySelectedField(s: State, t: State)
    requires Renderable(s) && Renderable(t)
    requires s.status == t.status
    requires s.status == Success ==> s.metrics == t.metrics
    requires s.status == Failure ==> s.error == t.error
    ensures Render(s) == Render(t)
  {
  }

  /** Every card of a metric with a non-empty key has a non-empty title. */
  lemma CardTitlesNonEmpty(entries: Metrics)
    requires forall i :: 0 <= i < |entries| ==> entries[i].key != ""
    ensures forall i :: 0 <= i < |Cards(entries)| ==> Cards(entries)[i].title != ""
  {
  }

  /** The grid of a concatenated body is the concatenation of the grids. */
  lemma CardsAppend(a: Metrics, b: Metrics)
    ensures Cards(a + b) == Cards(a) + Cards(b)
  {
  }

  /** The view after a completion depends on the outcome only, not on the state
      it landed on: whichever response resolves last decides the screen. */
  lemma ViewAfterCompletion(s: State, t: State, outcome: Outcome)
    ensures Renderable(Complete(s, outcome)) && Renderable(Complete(t, outcome))
    ensures Render(Complete(s, outcome)) == Render(Complete(t, outcome))
    ensures outcome.Ok? ==> Render(Complete(s, outcome)) == MetricsPanel(Cards(outcome.body))
    ensures !outcome.Ok? ==> Render(Complete(s, outcome)) == ErrorText(FailureMessage(outcome))
  {
    RenderReadsOnlySelectedField(Complete(s, outcome), Complete(t, outcome));
  }

  /** Typing in the URL box never changes what the content area shows. */
  lemma RenderIgnoresUrl(s: State, newUrl: string)
    requires Renderable(s)
    ensures Renderable(SetUrl(s, newUrl))
    ensures Render(SetUrl(s, newUrl)) == Render(s)
  {
  }
}
