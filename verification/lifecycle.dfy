/** The page over time: typing, submitting and responses arriving, interleaved
    on one shared session record (src/App.js, lines 17-48). Nothing stops a
    second submission while a first is in flight, so responses may arrive in
    any order relative to later submissions. */
module Lifecycle {
  import opened Wrappers
  import opened Session
  import opened Presentation

  /** One thing that can happen to the page. */
  datatype Event =
    | Type(text: string)         // `handleInputChange`
    | Submit                     // the Analyze button: the begin step of a request
    | Resolve(outcome: Outcome)  // one outstanding request finishes

  /** The session record together with the number of requests still in flight. */
  datatype World = World(session: State, inFlight: nat)

  const Boot: World := World(Start, 0)

  /** Applies one event. A response can only arrive for a request that was made,
      so a `Resolve` with nothing in flight changes nothing. */
  function Step(w: World, e: Event): World {
    match e
    case Type(text) => w.(session := SetUrl(w.session, text))
    case Submit => World(Begin(w.session), w.inFlight + 1)
    case Resolve(outcome) =>
      if w.inFlight == 0 then w else World(Complete(w.session, outcome), w.inFlight - 1)
  }

  /** The number of submissions among `events`. */
  function Submits(events: seq<Event>): nat
    decreases |events|
  {
    if |events| == 0 then 0
    else Submits(events[..|events| - 1]) + (if events[|events| - 1].Submit? then 1 else 0)
  }

  /** The number of responses among `events`. */
  function Resolves(events: seq<Event>): nat
    decreases |events|
  {
    if |events| == 0 then 0
    else Resolves(events[..|events| - 1]) + (if events[|events| - 1].Resolve? then 1 else 0)
  }

  /** Applies the events in order, the last one last. Each submission adds one
      request in flight and each response removes at most one. */
  function Run(w: World, events: seq<Event>): (r: World)
    ensures r.inFlight <= w.inFlight + Submits(events)
    ensures w.inFlight + Submits(events) <= r.inFlight + Resolves(events)
    decreases |events|
  {
    if |events| == 0 then w
    else Step(Run(w, events[..|events| - 1]), events[|events| - 1])
  }

  /** Every response in the trace answers an earlier submission: no prefix holds
      more responses than submissions. */
  ghost predicate Answered(events: seq<Event>) {
    forall k :: 0 <= k <= |events| ==> Resolves(events[..k]) <= Submits(events[..k])
  }

  /** When every response answers an earlier submission, the requests in flight
      are exactly the submissions not yet answered. */
  lemma {:induction false} InFlightCount(events: seq<Event>)
    requires Answered(events)
    ensures Run(Boot, events).inFlight == Submits(events) - Resolves(events)
    decreases |events|
  {
    if |events| > 0 {
      var n := |events| - 1;
      var prefix := events[..n];
      assert Answered(prefix) by {
        forall k | 0 <= k <= |prefix| ensures Resolves(prefix[..k]) <= Submits(prefix[..k]) {
          assert prefix[..k] == events[..k];
        }
      }
      InFlightCount(prefix);
      assert events[..|events|] == events;
    }
  }

  /** What holds of every state the page can reach, overlapping requests included. */
  ghost predicate Inv(w: World) {
    && (w.session.status == Initial ==>
          w.session.metrics == None && w.session.error == None && w.inFlight == 0)
    && (w.session.status == InProgress ==> w.inFlight > 0 && w.session.error == None)
    && (w.session.status == Success ==> w.session.metrics.Some?)
    && (w.session.status == Failure ==> w.session.error.Some? && w.session.error.value != "")
  }

  lemma StepPreservesInv(w: World, e: Event)
    requires Inv(w)
    ensures Inv(Step(w, e))
  {
  }

  lemma {:induction false} RunPreservesInv(w: World, events: seq<Event>)
    requires Inv(w)
    ensures Inv(Run(w, events))
    decreases |events|
  {
    if |events| > 0 {
      RunPreservesInv(w, events[..|events| - 1]);
      StepPreservesInv(Run(w, events[..|events| - 1]), events[|events| - 1]);
    }
  }

  /** In every reachable state: a failure carries a non-empty message, a success
      has metrics to draw (so the view is defined), and the loader is shown only
      while some request is outstanding. */
  lemma ReachableStates(events: seq<Event>)
    ensures var w := Run(Boot, events);
      && (w.session.status == Failure ==> w.session.error.Some? && w.session.error.value != "")
      && Renderable(w.session)
      && (w.session.status == InProgress ==> w.inFlight > 0)
  {
    RunPreservesInv(Boot, events);
  }

  /** The page shows its initial (empty) content exactly as long as Analyze has
      never been pressed; once left, `Initial` is never re-entered. */
  lemma {:induction false} InitialUntilFirstSubmit(events: seq<Event>)
    ensures Run(Boot, events).session.status == Initial <==> Submit !in events
    decreases |events|
  {
    if |events| > 0 {
      var prefix := events[..|events| - 1];
      var last := events[|events| - 1];
      assert events == prefix + [last];
      InitialUntilFirstSubmit(prefix);
      RunPreservesInv(Boot, prefix);
    }
  }

  /** The four-status cycle Initial -> InProgress -> Success | Failure -> InProgress:
      a begin from any status but InProgress, a pending request ending in success
      or failure, or no change. */
  predicate CycleStep(from: Status, to: Status) {
    || from == to
    || (from != InProgress && to == InProgress)
    || (from == InProgress && (to == Success || to == Failure))
  }

  /** A submission made while another request is still in flight. */
  predicate Overlaps(w: World, e: Event) {
    e.Submit? && w.inFlight > 0
  }

  /** The user waits for each response before pressing Analyze again. */
  ghost predicate Sequential(w: World, events: seq<Event>) {
    forall k :: 0 <= k < |events| ==> !Overlaps(Run(w, events[..k]), events[k])
  }

  /** What additionally holds while submissions never overlap. */
  ghost predicate SequentialInv(w: World) {
    && Inv(w)
    && w.inFlight <= 1
    && (w.inFlight == 1 <==> w.session.status == InProgress)
    && (w.session.status == Success ==> w.session.error == None)
  }

  lemma SequentialStep(w: World, e: Event)
    requires SequentialInv(w)
    requires !Overlaps(w, e)
    ensures SequentialInv(Step(w, e))
    ensures CycleStep(w.session.status, Step(w, e).session.status)
  {
  }

  /** Running one more event of a trace is one more step. */
  lemma RunExtend(w: World, events: seq<Event>, k: nat)
    requires k < |events|
    ensures Run(w, events[..k + 1]) == Step(Run(w, events[..k]), events[k])
  {
    assert events[..k + 1][..k] == events[..k];
  }

  /** Every prefix of a sequential trace ends in a state of the sequential invariant. */
  lemma {:induction false} SequentialPrefix(w: World, events: seq<Event>, k: nat)
    requires SequentialInv(w)
    requires Sequential(w, events)
    requires k <= |events|
    ensures SequentialInv(Run(w, events[..k]))
    decreases k
  {
    if k > 0 {
      SequentialPrefix(w, events, k - 1);
      RunExtend(w, events, k - 1);
      SequentialStep(Run(w, events[..k - 1]), events[k - 1]);
    }
  }

  /** Without overlapping submissions the status follows the four-status cycle at
      every step, at most one request is pending, the loader is shown exactly
      while it is pending, and a success never shows alongside an error. */
  lemma SequentialRun(w: World, events: seq<Event>)
    requires SequentialInv(w)
    requires Sequential(w, events)
    ensures SequentialInv(Run(w, events))
    ensures forall k :: 0 <= k < |events| ==>
              CycleStep(Run(w, events[..k]).session.status, Run(w, events[..k + 1]).session.status)
  {
    SequentialPrefix(w, events, |events|);
    assert events[..|events|] == events;
    forall k | 0 <= k < |events|
      ensures CycleStep(Run(w, events[..k]).session.status, Run(w, events[..k + 1]).session.status)
    {
      SequentialPrefix(w, events, k);
      RunExtend(w, events, k);
      SequentialStep(Run(w, events[..k]), events[k]);
    }
  }

  /** Two overlapping submissions: whichever response resolves last decides the
      status and the screen, exactly as if it had been the only request, and
      whatever the first response said is no longer visible. */
  lemma LastResolvedWins(w: World, first: Outcome, second: Outcome)
    ensures var raced := Step(Step(Step(Step(w, Submit), Submit), Resolve(first)), Resolve(second));
      var alone := Step(Step(w, Submit), Resolve(second));
      && raced.inFlight == w.inFlight
      && raced.session.status == OutcomeStatus(second)
      && Renderable(raced.session) && Renderable(alone.session)
      && Render(raced.session) == Render(alone.session)
  {
    var afterFirst := Step(Step(Step(w, Submit), Submit), Resolve(first));
    var alone := Step(Step(w, Submit), Resolve(second));
    ViewAfterCompletion(afterFirst.session, alone.session, second);
  }

  /** Overlap is invisible on the screen: submitting twice and then receiving
      two responses shows the same as waiting for the first response before
      submitting again. */
  lemma OverlapIndistinguishableOnScreen(w: World, first: Outcome, second: Outcome)
    ensures var overlapped := Step(Step(Step(Step(w, Submit), Submit), Resolve(first)), Resolve(second));
      var waited := Step(Step(Step(Step(w, Submit), Resolve(first)), Submit), Resolve(second));
      && overlapped.inFlight == waited.inFlight
      && Renderable(overlapped.session) && Renderable(waited.session)
      && Render(overlapped.session) == Render(waited.session)
  {
    var o := Step(Step(Step(w, Submit), Submit), Resolve(first));
    var q := Step(Step(Step(w, Submit), Resolve(first)), Submit);
    ViewAfterCompletion(o.session, q.session, second);
  }
}
