/**
 * Runs of the activity: taps from the gesture thread, frames on the render
 * thread and the loading-message runnables on the UI thread, interleaved in
 * any order.
 */
module ActivityRuns {
  import opened Wrappers
  import opened ArCore
  import opened TapQueue
  import opened FrameLoop
  import opened TickProperties

  datatype Event =
    | SingleTap(tap: Tap)                                        // onSingleTap
    | DrawFrame(frame: Option<Frame>, addAnchorThrows: bool)    // onDrawFrame
    | LoadingShown                                              // showLoadingMessage runnable
    | LoadingHidden                                             // hideLoadingMessage runnable

  /** The state after an event, or a run of events, and the calls it made. */
  datatype StepResult = StepResult(state: ActivityState, trace: seq<Effect>)

  function Step(s: ActivityState, e: Event): StepResult {
    match e
    case SingleTap(t) => StepResult(s.(queue := Offer(s.queue, t)), [])
    case DrawFrame(frame, addAnchorThrows) =>
      var r := Tick(s, frame, addAnchorThrows);
      StepResult(r.state, r.trace)
    case LoadingShown => StepResult(s.(loadingShown := true), [])
    case LoadingHidden => StepResult(s.(loadingShown := false), [])
  }

  /** The final state and all calls made by a run of events. */
  function Run(s: ActivityState, es: seq<Event>): StepResult
    decreases |es|
  {
    if es == [] then StepResult(s, [])
    else
      var r := Step(s, es[0]);
      var rest := Run(r.state, es[1..]);
      StepResult(rest.state, r.trace + rest.trace)
  }

  /** From any valid state (the activity starts in one), every run keeps both
      capacity bounds and the attachments oldest first. */
  lemma {:induction false} RunPreservesValid(s: ActivityState, es: seq<Event>)
    requires Valid(s)
    ensures Valid(Run(s, es).state)
    decreases |es|
  {
    if es != [] {
      if es[0].DrawFrame? {
        TickPreservesValid(s, es[0].frame, es[0].addAnchorThrows);
      }
      RunPreservesValid(Step(s, es[0]).state, es[1..]);
    }
  }

  /** An attachment leaves the list only through the release of its anchor:
      losing tracking never removes it. */
  lemma {:induction false} KeptUntilEvicted(s: ActivityState, es: seq<Event>, a: Attachment)
    requires a in s.touches
    requires RemoveAnchor(a.anchor) !in Run(s, es).trace
    ensures a in Run(s, es).state.touches
    decreases |es|
  {
    if es != [] {
      var r := Step(s, es[0]);
      if es[0].DrawFrame? && a !in r.state.touches {
        RemovedOnlyByEviction(s, es[0].frame, es[0].addAnchorThrows, a);
      }
      KeptUntilEvicted(r.state, es[1..], a);
    }
  }

  /** An attachment that stopped tracking for any number of frames is drawn
      again, with its shadow, by the first tick whose frame tracks it. */
  lemma DrawnAgainOnceTracking(s: ActivityState, es: seq<Event>, a: Attachment, f: Frame, addAnchorThrows: bool)
    requires a in s.touches
    requires RemoveAnchor(a.anchor) !in Run(s, es).trace
    requires f.state == Tracking && IsTracking(f, a)
    requires !AddAnchorAborts(Run(s, es).state, f, addAnchorThrows)
    requires RemoveAnchor(a.anchor) !in Tick(Run(s, es).state, Some(f), addAnchorThrows).trace
    ensures DrawObject(a) in Tick(Run(s, es).state, Some(f), addAnchorThrows).trace
    ensures DrawShadow(a) in Tick(Run(s, es).state, Some(f), addAnchorThrows).trace
  {
    var s1 := Run(s, es).state;
    KeptUntilEvicted(s, es, a);
    var r := Tick(s1, Some(f), addAnchorThrows);
    if a !in r.state.touches {
      RemovedOnlyByEviction(s1, Some(f), addAnchorThrows, a);
    }
    TickObjectDraws(s1, f, addAnchorThrows);
    var i :| 0 <= i < |r.trace| && r.trace[i] == DrawObject(a);
    assert r.trace[i + 1] == DrawShadow(a);
  }
}
