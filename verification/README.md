# SpeedX page lifecycle in Dafny

This project models the logic of the SpeedX website performance analyzer page
(`src/App.js`). A user types a URL and presses Analyze. The page sends one
request to a remote analysis service. It then shows a loader, the returned
metrics as cards, or an error message.

The model holds four pure pieces:

- **Session** (`session.dfy`): the four-way status and the session record
  (`url`, `status`, `metrics`, `error`). Also the transitions: typing
  (`SetUrl`), the synchronous begin step of `analyzeWebsite` (`Begin`) and its
  three completion paths (`Complete`). The network result is an abstract
  `Outcome`: `Ok(body)`, `NotOk(errorField)` or `Thrown`. A whole
  non-overlapping call is `Analyze(s, o) == Complete(Begin(s), o)`.
- **MetricFormatter** (`metric_formatter.dfy`): the twelve-entry label table,
  own-key lookup, and `formatMetricLabel` with its identity fallback.
- **Presentation** (`presentation.dfy`): `renderContent`/`renderMetrics` as a
  pure map from the record to one of four views. These are `Blank`, `Loading`,
  `ErrorText(text)` and `MetricsPanel(cards)`. Each card is a (title, value) pair.
- **Lifecycle** (`lifecycle.dfy`): traces of typing, submit and resolve events
  on one shared record. It counts the requests in flight, so overlapping
  submissions are an explicit interleaving of begin and complete steps.
  `Scenarios` (`scenarios.dfy`) holds concrete runs.

The model follows what each assignment in the code does:

- Submitting clears `error` but keeps the old `metrics` (`src/App.js:23`).
- Neither failure path clears `metrics` (`src/App.js:41-42`, `45-46`).
- The success path leaves `error` as it is (`src/App.js:38-39`).
- Completions do not check the current status.

A natural reading of the record, "metrics present iff Success" and "error
present iff Failure", is therefore false. A failure after a success keeps the old metrics, even with one
request at a time (`Scenarios.FailureKeepsStaleMetrics`). With overlap, a
success can keep another request's error (`Scenarios.SuccessKeepsStaleError`).
The status can also go from Success straight to Failure
(`Scenarios.SuccessToFailureWithoutSubmit`). The screen never shows these stale
fields, because the view reads only the field that belongs to the status
(`Presentation.RenderReadsOnlySelectedField`). With one request at a time the
status follows the four-status cycle Initial → InProgress → Success | Failure →
InProgress (`Lifecycle.SequentialRun`).

`Render` requires `Renderable`: a Success record must hold metrics. The page
would throw in `Object.entries(null)` otherwise. `Lifecycle.ReachableStates`
proves that every reachable record is renderable, for 2xx bodies that are
objects whose values are numbers or strings. A 2xx `null` body would store null metrics under Success, and the page
would then throw (this case is left out). A `Resolve` event with no
request in flight changes nothing, because in the program every completion
belongs to an earlier begin. A transport error, a body that fails to parse as
JSON, and a non-ok body of `null` (reading `data.error` on it throws) all reach
the `catch` block and are `Thrown`. Any other non-ok body whose `error`
field is missing or falsy is `NotOk(None)`; a truthy non-string field is left out.

## Model

| member | source | states |
|---|---|---|
| Session.Status | src/App.js:4-9 | the four lifecycle statuses, one variant per constant |
| Session.State | src/App.js:12-15 | the session record: url, status, metrics (optional) and error (optional) |
| Session.Start | src/App.js:12-15 | the record the page mounts with: status Initial, no metrics, no error, empty url |
| Session.Outcome | src/App.js:30-47 | the three ways `analyzeWebsite` ends: ok response, non-ok response, or thrown (transport error, JSON parse failure, non-ok `null` body) |
| Session.FallbackMessage | src/App.js:42-46 | the literal fallback message "Failed to analyze the website." |
| Session.SetUrl | src/App.js:17-19 | typing sets `url` to the typed text and leaves status, metrics and error unchanged |
| Session.SetUrlLastWriteWins | src/App.js:17-19 | typing twice keeps the last text; typing the same text twice is idempotent |
| Session.SetUrlCommutes | src/App.js:15-24 | typing commutes with both the begin step and every completion |
| Session.Begin | src/App.js:23-24 | submitting sets status InProgress and clears error, keeping url and the old metrics |
| Session.ErrorMessage | src/App.js:42 | the non-ok message is never empty; it is the server's field when that is a non-empty string, and otherwise the fixed fallback |
| Session.OutcomeStatus | src/App.js:37-46 | a completion ends in Success exactly for an ok response and in Failure otherwise, never Initial or InProgress |
| Session.Complete | src/App.js:35-47 | ok stores the body verbatim and keeps error; non-ok and thrown keep metrics and set a non-empty message (server field or fixed fallback, fallback always when thrown); url is kept |
| Session.FailureMessage | src/App.js:40-47 | the message a failing outcome leaves is non-empty and is the fallback for thrown failures |
| Session.Analyze | src/App.js:21-48 | a single non-overlapping call on ok leaves the body as metrics and no error; on failure it keeps the metrics and sets the failure message |
| Session.CompletionForgetsPriorState | src/App.js:37-47 | a completion's status and the field it writes do not depend on the state it lands on |
| MetricFormatter.Lookup | src/App.js:72-86 | own-key lookup is absent exactly when no table key matches, and a hit is a (key, label) pair of the table |
| MetricFormatter.LabelTable | src/App.js:72-85 | the twelve (key, label) pairs of the table, in literal order |
| MetricFormatter.LabelTableWellFormed | src/App.js:72-85 | the table has 12 distinct keys with non-empty labels, each different from its key |
| MetricFormatter.LabelIn | src/App.js:86 | the label rule over any table: a non-empty key gets a non-empty title, and the title is the key or that key's label in the table |
| MetricFormatter.ListedKeyGetsItsLabel | src/App.js:86 | in a table with distinct keys and non-empty labels, each listed key gets its own label |
| MetricFormatter.FallbackIffUnlistedIn | src/App.js:86 | in such a table the key is returned unchanged if and only if it is not listed |
| MetricFormatter.FormatMetricLabel | src/App.js:71-87 | a non-empty key gets a non-empty title; the title is the key or that key's table label |
| MetricFormatter.LabelOfListedKey | src/App.js:71-87 | each of the twelve listed keys gets exactly its table label |
| MetricFormatter.FallbackIffUnlisted | src/App.js:86 | the key is returned unchanged if and only if it is not a listed key |
| Presentation.Cards | src/App.js:61-66 | one card per metrics entry, in entry order, titled by the formatter and holding the entry's value |
| Presentation.CardsAppend | src/App.js:61-66 | the cards of a concatenated body are the concatenated cards |
| Presentation.CardTitlesNonEmpty | src/App.js:61-66 | entries with non-empty keys give cards with non-empty titles |
| Presentation.Renderable | src/App.js:61 | a Success record must hold metrics, since `Object.entries(null)` throws |
| Presentation.View | src/App.js:89-100 | the four things `renderContent` returns: nothing, the loader, the error paragraph, the metrics grid |
| Presentation.Render | src/App.js:89-100 | the view is selected by status alone: Initial blank, InProgress loading, Failure the error text, Success the cards of the metrics |
| Presentation.RenderReadsOnlySelectedField | src/App.js:89-100 | records that agree on status and on the field that status reads draw the same view |
| Presentation.ViewAfterCompletion | src/App.js:37-47 | after any completion the view depends only on the outcome: the body's cards or the failure message |
| Presentation.RenderIgnoresUrl | src/App.js:17-19 | typing never changes the view |
| Lifecycle.Run | src/App.js:21-47 | along any trace each submission adds one request in flight and each response removes at most one, so in flight is at most the submissions and at least submissions minus responses |
| Lifecycle.InFlightCount | src/App.js:21-47 | when every response answers an earlier submission, the requests in flight are exactly the submissions minus the responses |
| Lifecycle.Inv | src/App.js:12-47 | the reachable-state invariant: Initial has no metrics, error or request; InProgress has a request and no error; Success has metrics; Failure has a non-empty error |
| Lifecycle.StepPreservesInv | src/App.js:21-47 | every event keeps the reachable-state invariant |
| Lifecycle.RunPreservesInv | src/App.js:21-47 | every trace of events keeps the reachable-state invariant |
| Lifecycle.ReachableStates | src/App.js:21-47 | in every reachable record a Failure has a non-empty error, a Success has metrics, and the loader shows only while a request is in flight |
| Lifecycle.InitialUntilFirstSubmit | src/App.js:12-24 | the status is Initial exactly until the first submission and is never re-entered |
| Lifecycle.SequentialStep | src/App.js:21-47 | without overlap, one event keeps at most one request pending and moves the status along the four-status cycle |
| Lifecycle.SequentialPrefix | src/App.js:21-47 | every prefix of a non-overlapping trace satisfies the sequential invariant |
| Lifecycle.SequentialRun | src/App.js:21-47 | without overlap every status change follows the four-status cycle, and a Success never carries an error |
| Lifecycle.LastResolvedWins | src/App.js:21-47 | with two overlapping requests the last response decides status and view, as if it were the only request |
| Lifecycle.OverlapIndistinguishableOnScreen | src/App.js:21-47 | overlapped submissions show the same screen as waiting before resubmitting |
| Scenarios.OkResponseShowsCards | src/App.js:37-39 | the body {performance: 90, ttfb: 120} is stored verbatim and drawn as "Performance Score" 90 and "Time to First Byte (TTFB)" 120 |
| Scenarios.ServerMessageShown | src/App.js:40-43 | a non-ok body with error "Invalid URL" shows that message |
| Scenarios.FallbackMessageShown | src/App.js:40-47 | a missing or empty error field, and any thrown failure, end in Failure storing and drawing the fixed fallback message |
| Scenarios.FailureKeepsStaleMetrics | src/App.js:23-46 | a failure after a success keeps the old metrics next to the error |
| Scenarios.SuccessKeepsStaleError | src/App.js:23-46 | under overlap a success can keep the other request's error |
| Scenarios.SuccessToFailureWithoutSubmit | src/App.js:37-46 | under overlap the status can go from Success straight to Failure |

## Left out

- The `fetch` call, the endpoint URL, the headers and the JSON encoding and decoding (`src/App.js:25-35`) are network and foreign I/O. They are replaced by the abstract `Outcome`.
- React hooks, JSX markup, CSS classes, the loader and header text (`src/App.js:1-2`, `50-55`, `102-122`) are UI. Only the choice of view and the card sequence are modelled.
- Each branch's two state setters are one atomic transition, as under React 18's automatic batching. A React version that renders between the two setters would briefly show a Failure with no message; that render is not modelled.
- The `error` field of a non-ok body is `Option<string>`, with the empty string treated like a missing field. JavaScript truthiness of a non-string field (number, object) is not modelled.
- The label table is a finite list of own keys. Prototype-inherited keys such as `toString` or `constructor` are not modelled.
- Metric values are JSON numbers (as mathematical reals, not doubles) or strings. Nested objects, arrays, booleans and `null` values are not modelled. Neither is a 2xx body that is not an object, or duplicate keys in the body. A 2xx `null` body (`Object.entries(null)`, src/App.js:61) and a metric value that is an object or an array of objects (`{value}`, src/App.js:64) make the page throw on render; the model has no state for either.
- Async scheduling is not modelled. Overlap is an explicit interleaving of begin and complete events with no real concurrency.
