/** The session record of the analyzer page and the transitions that the input
    handler and the analysis request apply to it (src/App.js, lines 4-48). */
module Session {
  import opened Wrappers

  /** The four lifecycle statuses (`apiStatusConstants`). */
  datatype Status = Initial | InProgress | Success | Failure

  /** A metric value as the analysis service sends it: a JSON number or string. */
  datatype Value = Number(n: real) | Text(s: string)

  /** One own property of the parsed response object. */
  datatype Entry = Entry(key: string, value: Value)

  /** A parsed response object, as its entries in `Object.entries` order. */
  type Metrics = seq<Entry>

  /** The four state hooks of the page; `null` is `None`. */
  datatype State = State(url: string, status: Status, metrics: Option<Metrics>, error: Option<string>)

  /** How the one network round trip of a submission ended. A transport error, a
      body that does not parse as JSON, and a non-ok body of `null` (reading
      `data.error` on it throws) all end in the `catch` and are `Thrown`; any
      other non-ok body whose `error` field is missing or falsy is `NotOk(None)`;
      a truthy non-string field is not modelled. */
  datatype Outcome =
    | Ok(body: Metrics)
    | NotOk(errorField: Option<string>)
    | Thrown

  /** The fixed user-facing message for every failure without a usable server message. */
  const FallbackMessage: string := "Failed to analyze the website."

  /** The state the page mounts with: empty URL, no metrics, no error. */
  const Start: State := State("", Initial, None, None)

  /** `handleInputChange`: the text box writes the URL and nothing else. */
  function SetUrl(s: State, newUrl: string): (r: State)
    ensures r.url == newUrl
    ensures r.status == s.status && r.metrics == s.metrics && r.error == s.error
  {
    s.(url := newUrl)
  }

  /** The synchronous prefix of `analyzeWebsite`: clear the error, show the loader.
      The previous metrics are kept: the begin step never writes `metrics`. */
  function Begin(s: State): (r: State)
    ensures r.status == InProgress
    ensures r.error == None
    ensures r.url == s.url && r.metrics == s.metrics
  {
    s.(error := None, status := InProgress)
  }

  /** The message shown for a non-ok response: the server's `error` field when it
      is a non-empty string, otherwise the fallback (`data.error || ...`). */
  function ErrorMessage(errorField: Option<string>): (m: string)
    ensures m != ""
    ensures m == FallbackMessage || errorField == Some(m)
    ensures errorField.Some? && errorField.value != "" ==> m == errorField.value
  {
    if errorField.Some? && errorField.value != "" then errorField.value else FallbackMessage
  }

  /** The status a completion with `outcome` leaves behind. */
  function OutcomeStatus(outcome: Outcome): (st: Status)
    ensures st == Success || st == Failure
    ensures st == Success <==> outcome.Ok?
  {
    if outcome.Ok? then Success else Failure
  }

  /** The asynchronous suffix of `analyzeWebsite`, applied to whatever the state is
      when the response arrives; it does not look at the current status. */
  function Complete(s: State, outcome: Outcome): (r: State)
    ensures r.status == OutcomeStatus(outcome)
    ensures r.url == s.url
    // an ok response stores the body verbatim and leaves the error alone
    ensures outcome.Ok? ==> r.metrics == Some(outcome.body) && r.error == s.error
    // both failure paths keep the metrics and always leave a non-empty message
    ensures !outcome.Ok? ==> r.metrics == s.metrics && r.error.Some? && r.error.value != ""
    ensures (outcome.NotOk? && outcome.errorField.Some? && outcome.errorField.value != "")
      ==> r.error == outcome.errorField
    ensures (outcome.NotOk? && (outcome.errorField.None? || outcome.errorField.value == ""))
      ==> r.error == Some(FallbackMessage)
    ensures outcome.Thrown? ==> r.error == Some(FallbackMessage)
  {
    match outcome
    case Ok(body) => s.(metrics := Some(body), status := Success)
    case NotOk(field) => s.(status := Failure, error := Some(ErrorMessage(field)))
    case Thrown => s.(status := Failure, error := Some(FallbackMessage))
  }

  /** One whole `analyzeWebsite` call with no other submission interleaved. */
  function Analyze(s: State, outcome: Outcome): (r: State)
    ensures r.status == OutcomeStatus(outcome)
    ensures r.url == s.url
    // the error cleared by the begin step is still clear after success
    ensures outcome.Ok? ==> r.metrics == Some(outcome.body) && r.error == None
    ensures !outcome.Ok? ==> r.metrics == s.metrics && r.error == Some(FailureMessage(outcome))
  {
    Complete(Begin(s), outcome)
  }

  /** The message a failing outcome leaves in `error`. */
  function FailureMessage(outcome: Outcome): (m: string)
    ensures m != ""
    ensures outcome.NotOk? ==> m == ErrorMessage(outcome.errorField)
    ensures !outcome.NotOk? ==> m == FallbackMessage
  {
    match outcome
    case NotOk(field) => ErrorMessage(field)
    case _ => FallbackMessage
  }

  /** Typing twice the same text is the same as typing it once; more generally
      the last text typed is the one kept. */
  lemma SetUrlLastWriteWins(s: State, first: string, second: string)
    ensures SetUrl(SetUrl(s, first), second) == SetUrl(s, second)
    ensures SetUrl(SetUrl(s, first), first) == SetUrl(s, first)
  {
  }

  /** Typing does not interfere with a request: it commutes with both halves of
      `analyzeWebsite`. */
  lemma SetUrlCommutes(s: State, newUrl: string, outcome: Outcome)
    ensures SetUrl(Begin(s), newUrl) == Begin(SetUrl(s, newUrl))
    ensures SetUrl(Complete(s, outcome), newUrl) == Complete(SetUrl(s, newUrl), outcome)
  {
  }

  /** A completion's status and the field it writes do not depend on the state it
      lands on: the last completion decides what is shown. */
  lemma CompletionForgetsPriorState(s: State, t: State, outcome: Outcome)
    ensures Complete(s, outcome).status == Complete(t, outcome).status
    ensures outcome.Ok? ==> Complete(s, outcome).metrics == Complete(t, outcome).metrics
    ensures !outcome.Ok? ==> Complete(s, outcome).error == Complete(t, outcome).error
  {
  }
}
