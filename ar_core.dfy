/**
 * Opaque stand-ins for the ARCore values the frame loop reads. Poses,
 * matrices, hit distances and lighting are floating-point data the loop only
 * passes through, so each value keeps just the identity, kind and flags the
 * loop branches on.
 */
module ArCore {
  /** A queued single-tap gesture (a MotionEvent); only its identity matters. */
  datatype Tap = Tap(id: nat)

  /** A pose reported by ARCore (a hit pose); only its identity matters. */
  datatype Pose = Pose(id: nat)

  /** Tracking state of a frame (TRACKING or NOT_TRACKING). */
  datatype TrackingState = Tracking | NotTracking

  /** Plane classification; the loop only asks for HORIZONTAL_UPWARD_FACING. */
  datatype PlaneType = HorizontalUpwardFacing | OtherOrientation

  /** A detected plane. Whether it is tracking changes from frame to frame,
      so that is read from the frame (Frame.trackedPlanes), not stored here. */
  datatype Plane = Plane(id: nat, planeType: PlaneType)

  /** An anchor handle returned by session.addAnchor, numbered in creation order. */
  datatype Anchor = Anchor(serial: nat)

  /** One candidate returned by frame.hitTest: a PlaneHitResult, with its plane,
      hit pose and isHitInPolygon flag, or any other kind of hit. */
  datatype HitResult =
    | PlaneHit(plane: Plane, pose: Pose, inPolygon: bool)
    | OtherHit(pose: Pose)

  /**
   * The frame returned by session.update(): its tracking state, its hit test
   * (candidates nearest first), the planes session.getAllPlanes() lists during
   * this tick, and which planes and anchors report TRACKING in this frame.
   */
  datatype Frame = Frame(
    state: TrackingState,
    hitTest: Tap -> seq<HitResult>,
    planes: seq<Plane>,
    trackedPlanes: set<nat>,
    trackedAnchors: set<Anchor>)

  /** A PlaneAttachment: the plane that was hit and the anchor created there. */
  datatype Attachment = Attachment(plane: Plane, anchor: Anchor)

  /** PlaneAttachment.isTracking: both the plane and the anchor are tracking. */
  predicate IsTracking(f: Frame, a: Attachment) {
    a.plane.id in f.trackedPlanes && a.anchor in f.trackedAnchors
  }
}
