/**
 * The activity's tap and frame handling as an object whose fields change in
 * place: the tap queue, the list of placed attachments and the loading-message
 * flag, together with the session's anchor numbering.
 */
module Activity {
  import opened Wrappers
  import opened ArCore
  import opened TapQueue
  import opened TapResolution
  import opened AnchorSet
  import opened FrameLoop

  class MainActivity {
    var queue: seq<Tap>
    var touches: seq<Attachment>
    /** loadingMessageSnackbar != null */
    var loadingShown: bool
    /** Serial of the next anchor session.addAnchor returns. */
    var nextAnchor: nat

    function State(): ActivityState
      reads this
    {
      ActivityState(queue, touches, loadingShown, nextAnchor)
    }

    constructor ()
      ensures State() == ActivityState([], [], false, 0)
      ensures Valid(State())
    {
      queue := [];
      touches := [];
      loadingShown := false;
      nextAnchor := 0;
    }

    /** onSingleTap: offer the tap; it is dropped when 16 taps are queued. */
    method OnSingleTap(t: Tap)
      modifies this
      ensures queue == if |old(queue)| < QueueCapacity then old(queue) + [t] else old(queue)
      ensures touches == old(touches) && loadingShown == old(loadingShown) && nextAnchor == old(nextAnchor)
      ensures Valid(old(State())) ==> Valid(State())
    {
      if |queue| < QueueCapacity {
        queue := queue + [t];
      }
    }

    /** The UI-thread part of showLoadingMessage: the snackbar is set. */
    method ShowLoadingMessage()
      modifies this
      ensures State() == old(State()).(loadingShown := true)
    {
      loadingShown := true;
    }

    /** The UI-thread part of hideLoadingMessage: the snackbar is dismissed and cleared. */
    method HideLoadingMessage()
      modifies this
      ensures State() == old(State()).(loadingShown := false)
    {
      loadingShown := false;
    }

    /**
     * onDrawFrame. `frame` is None when session.update() throws;
     * `addAnchorThrows` says whether session.addAnchor throws this tick.
     * Returns the calls the tick makes, in order.
     */
    method OnDrawFrame(frame: Option<Frame>, addAnchorThrows: bool) returns (trace: seq<Effect>)
      modifies this
      ensures TickResult(State(), trace) == Tick(old(State()), frame, addAnchorThrows)
    {
      trace := [];
      if frame.None? {
        return;
      }
      var f := frame.value;
      var aborted;
      trace, aborted := HandleTap(f, addAnchorThrows);
      if aborted {
        return;
      }
      var draws := DrawPasses(f);
      trace := trace + draws;
    }

    /** The tap handling of onDrawFrame: poll one tap and, on a tracking
        frame, place an attachment at its first qualifying hit. */
    method HandleTap(f: Frame, addAnchorThrows: bool) returns (calls: seq<Effect>, aborted: bool)
      modifies this
      ensures TapOutcome(State(), calls, aborted) == FrameLoop.HandleTap(old(State()), f, addAnchorThrows)
    {
      calls, aborted := [], false;
      var tap: Option<Tap> := None;
      if queue != [] {
        tap := Some(queue[0]);
        queue := queue[1..];
      }
      if tap.Some? && f.state == Tracking {
        var hits := f.hitTest(tap.value);
        for i := 0 to |hits|
          invariant forall j :: 0 <= j < i ==> !Qualifies(hits[j])
          invariant touches == old(touches) && nextAnchor == old(nextAnchor) && calls == []
        {
          var hit := hits[i];
          if hit.PlaneHit? && hit.inPolygon {
            assert FirstQualifying(hits) == Some(i);
            if |touches| >= AnchorCapacity {
              calls := calls + [RemoveAnchor(touches[0].anchor)];
              touches := touches[1..];
            }
            if addAnchorThrows {
              aborted := true;
              return;
            }
            var anchor := Anchor(nextAnchor);
            nextAnchor := nextAnchor + 1;
            calls := calls + [AddAnchor(hit.pose)];
            touches := touches + [Attachment(hit.plane, anchor)];
            return;
          }
        }
      }
    }

    /** The draw passes of onDrawFrame, from the background to the objects. */
    method DrawPasses(f: Frame) returns (draws: seq<Effect>)
      ensures draws == RenderPasses(State(), f)
    {
      draws := [DrawBackground];
      if f.state == NotTracking {
        return;
      }
      draws := draws + [DrawPointCloud];

      // Hide the loading message once an upward-facing plane tracks.
      if loadingShown {
        for k := 0 to |f.planes|
          invariant forall j :: 0 <= j < k ==> !UpwardPlaneTracking(f, f.planes[j])
          invariant draws == [DrawBackground, DrawPointCloud]
        {
          var plane := f.planes[k];
          if plane.planeType == HorizontalUpwardFacing && plane.id in f.trackedPlanes {
            draws := draws + [HideLoading];
            break;
          }
        }
      }
      draws := draws + [DrawPlanes];
      ghost var fixedPasses := draws;
      assert fixedPasses + AttachmentDraws(touches, f) == RenderPasses(State(), f);

      // Draw each tracking attachment and its shadow, in list order.
      for k := 0 to |touches|
        invariant draws == fixedPasses + AttachmentDraws(touches[..k], f)
      {
        assert touches[..k + 1][..k] == touches[..k];
        var attachment := touches[k];
        if !IsTracking(f, attachment) {
          continue;
        }
        draws := draws + [DrawObject(attachment), DrawShadow(attachment)];
      }
      assert touches[..|touches|] == touches;
    }
  }
}
