/**
 * One tick of onDrawFrame as a function of the activity's state and the frame
 * ARCore returns: the tap it polls, the attachment it may place, and the
 * ordered trace of calls it makes into ARCore and the renderers.
 */
module FrameLoop {
  import opened Wrappers
  import opened ArCore
  import opened TapQueue
  import opened TapResolution
  import opened AnchorSet

  /** The externally visible calls a tick makes, in the order it makes them. */
  datatype Effect =
    | RemoveAnchor(anchor: Anchor)          // session.removeAnchors([anchor])
    | AddAnchor(pose: Pose)                 // session.addAnchor(hit.hitPose)
    | DrawBackground                        // backgroundRenderer.draw(frame)
    | DrawPointCloud                        // pointCloud.update + draw
    | HideLoading                           // hideLoadingMessage() requested
    | DrawPlanes                            // planeRenderer.drawPlanes
    | DrawObject(attachment: Attachment)    // virtualObject.draw at the attachment's pose
    | DrawShadow(attachment: Attachment)    // virtualObjectShadow.draw at the same pose

  /**
   * The activity state a tick reads and writes: the tap queue, the placed
   * attachments, whether the loading message is showing (the snackbar field
   * is non-null), and the serial of the next anchor the session will create.
   */
  datatype ActivityState = ActivityState(
    queue: seq<Tap>,
    touches: seq<Attachment>,
    loadingShown: bool,
    nextAnchor: nat)

  datatype TickResult = TickResult(state: ActivityState, trace: seq<Effect>)

  /** What every tick keeps: both bounds, anchors oldest first, and every
      listed anchor already created. */
  predicate Valid(s: ActivityState) {
    |s.queue| <= QueueCapacity &&
    |s.touches| <= AnchorCapacity &&
    CreationOrdered(s.touches) &&
    forall i :: 0 <= i < |s.touches| ==> s.touches[i].anchor.serial < s.nextAnchor
  }

  /** The hit a polled tap resolves to: only on a tracking frame, and then the
      first qualifying candidate of its hit test. */
  function ChosenHit(f: Frame, tap: Option<Tap>): (r: Option<HitResult>)
    ensures r.Some? ==> Qualifies(r.value)
  {
    if tap.Some? && f.state == Tracking then
      var hits := f.hitTest(tap.value);
      match FirstQualifying(hits)
      case Some(i) => Some(hits[i])
      case None => None
    else None
  }

  /** This plane is HORIZONTAL_UPWARD_FACING and TRACKING in the frame. */
  predicate UpwardPlaneTracking(f: Frame, p: Plane) {
    p.planeType == HorizontalUpwardFacing && p.id in f.trackedPlanes
  }

  /** Some plane of session.getAllPlanes() is HORIZONTAL_UPWARD_FACING and TRACKING. */
  predicate PlaneFound(f: Frame) {
    exists i :: 0 <= i < |f.planes| && UpwardPlaneTracking(f, f.planes[i])
  }

  /** The object and shadow draws for the attachments, in list order,
      skipping those that are not tracking. */
  function AttachmentDraws(ts: seq<Attachment>, f: Frame): (r: seq<Effect>)
    ensures forall i :: 0 <= i < |r| ==> r[i].DrawObject? || r[i].DrawShadow?
    ensures |r| <= 2 * |ts|
    decreases |ts|
  {
    if ts == [] then []
    else
      var a := ts[|ts| - 1];
      AttachmentDraws(ts[..|ts| - 1], f) + (if IsTracking(f, a) then [DrawObject(a), DrawShadow(a)] else [])
  }

  /** The draw passes of a tick whose placement, if any, is done. */
  function RenderPasses(s: ActivityState, f: Frame): (r: seq<Effect>)
    ensures |r| >= 1 && r[0] == DrawBackground
    ensures |r| == 1 <==> f.state == NotTracking
  {
    [DrawBackground] +
    if f.state == NotTracking then []
    else
      [DrawPointCloud] +
      (if s.loadingShown && PlaneFound(f) then [HideLoading] else []) +
      [DrawPlanes] +
      AttachmentDraws(s.touches, f)
  }

  /** The effects that make room for a new attachment. */
  function Eviction(ts: seq<Attachment>): (r: seq<Effect>)
    ensures r == [] <==> MakeRoom(ts) == ts
    ensures r != [] ==> |ts| > 0 && r == [RemoveAnchor(ts[0].anchor)] && [ts[0]] + MakeRoom(ts) == ts
  {
    if |ts| >= AnchorCapacity then [RemoveAnchor(ts[0].anchor)] else []
  }

  /** The tap handling of a tick: the state after it, the ARCore calls it
      made, and whether it ended in the catch-all at session.addAnchor. */
  datatype TapOutcome = TapOutcome(state: ActivityState, calls: seq<Effect>, aborted: bool)

  /** Poll one tap and, on a tracking frame, place an attachment at its first
      qualifying hit, evicting the oldest attachment when the list is full. */
  function HandleTap(s: ActivityState, f: Frame, addAnchorThrows: bool): (r: TapOutcome)
    ensures forall i :: 0 <= i < |r.calls| ==> r.calls[i].RemoveAnchor? || r.calls[i].AddAnchor?
  {
    var p := Poll(s.queue);
    var polled := s.(queue := p.1);
    match ChosenHit(f, p.0)
    case None => TapOutcome(polled, [], false)
    case Some(hit) =>
      if addAnchorThrows then
        TapOutcome(polled.(touches := MakeRoom(s.touches)), Eviction(s.touches), true)
      else
        var placed := polled.(touches := Admit(s.touches, Attachment(hit.plane, Anchor(s.nextAnchor))),
                              nextAnchor := s.nextAnchor + 1);
        TapOutcome(placed, Eviction(s.touches) + [AddAnchor(hit.pose)], false)
  }

  /**
   * One onDrawFrame. `frame` is None when session.update() throws; the tick
   * then ends in the catch-all before the queue is polled. `addAnchorThrows`
   * says whether session.addAnchor throws in this tick, which ends the tick in
   * the catch-all after any eviction has already happened.
   */
  function Tick(s: ActivityState, frame: Option<Frame>, addAnchorThrows: bool): (r: TickResult)
    ensures frame.None? ==> r == TickResult(s, [])
    ensures frame.Some? ==> r.state.queue == if s.queue == [] then [] else s.queue[1..]
    ensures r.state.loadingShown == s.loadingShown
  {
    match frame
    case None => TickResult(s, [])
    case Some(f) =>
      var h := HandleTap(s, f, addAnchorThrows);
      if h.aborted then TickResult(h.state, h.calls)
      else TickResult(h.state, h.calls + RenderPasses(h.state, f))
  }

  /** The tick ends in the catch-all at session.addAnchor. */
  predicate AddAnchorAborts(s: ActivityState, f: Frame, addAnchorThrows: bool) {
    addAnchorThrows && ChosenHit(f, Poll(s.queue).0).Some?
  }
}
