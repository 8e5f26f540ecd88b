/**
 * What a single onDrawFrame tick guarantees: the bounds and order it keeps,
 * when and how it places an attachment, and the order and gating of its draws.
 */
module TickProperties {
  import opened Wrappers
  import opened ArCore
  import opened TapQueue
  import opened TapResolution
  import opened AnchorSet
  import opened FrameLoop

  /** Position of each call in the fixed pass order of a tick. */
  function Rank(e: Effect): nat {
    match e
    case RemoveAnchor(_) => 0
    case AddAnchor(_) => 1
    case DrawBackground => 2
    case DrawPointCloud => 3
    case HideLoading => 4
    case DrawPlanes => 5
    case DrawObject(_) => 6
    case DrawShadow(_) => 6
  }

  /** The calls of a trace never go back to an earlier pass. */
  predicate PassOrdered(t: seq<Effect>) {
    forall i, j :: 0 <= i < j < |t| ==> Rank(t[i]) <= Rank(t[j])
  }

  /** The tracking attachments, in list order. */
  function Tracked(ts: seq<Attachment>, f: Frame): (r: seq<Attachment>)
    ensures forall a :: a in r <==> a in ts && IsTracking(f, a)
    decreases |ts|
  {
    if ts == [] then []
    else
      var a := ts[|ts| - 1];
      assert ts == ts[..|ts| - 1] + [a];
      Tracked(ts[..|ts| - 1], f) + (if IsTracking(f, a) then [a] else [])
  }

  /** The attachment draws are, for each tracking attachment in list order,
      its object draw immediately followed by its shadow draw. */
  lemma {:induction false} AttachmentDrawsArePairs(ts: seq<Attachment>, f: Frame)
    ensures |AttachmentDraws(ts, f)| == 2 * |Tracked(ts, f)|
    ensures forall k :: 0 <= k < |Tracked(ts, f)| ==>
      AttachmentDraws(ts, f)[2 * k] == DrawObject(Tracked(ts, f)[k]) &&
      AttachmentDraws(ts, f)[2 * k + 1] == DrawShadow(Tracked(ts, f)[k])
    decreases |ts|
  {
    if ts != [] {
      AttachmentDrawsArePairs(ts[..|ts| - 1], f);
    }
  }

  /** The tracking attachments keep the list's order: oldest anchor first. */
  lemma {:induction false} TrackedKeepsOrder(ts: seq<Attachment>, f: Frame)
    requires CreationOrdered(ts)
    ensures CreationOrdered(Tracked(ts, f))
    decreases |ts|
  {
    if ts != [] {
      var init := ts[..|ts| - 1];
      var a := ts[|ts| - 1];
      assert CreationOrdered(init);
      TrackedKeepsOrder(init, f);
      var t := Tracked(init, f);
      if IsTracking(f, a) {
        forall i | 0 <= i < |t| ensures t[i].anchor.serial < a.anchor.serial {
          assert t[i] in t;
          var k :| 0 <= k < |init| && init[k] == t[i];
          assert ts[k] == init[k];
        }
      }
    }
  }

  /** In a list of distinct anchors, each tracking attachment gets exactly one
      object draw and one shadow draw; the others get none. */
  lemma {:induction false} AttachmentDrawnOnce(ts: seq<Attachment>, f: Frame, a: Attachment)
    requires CreationOrdered(ts)
    ensures multiset(AttachmentDraws(ts, f))[DrawObject(a)] == if a in ts && IsTracking(f, a) then 1 else 0
    ensures multiset(AttachmentDraws(ts, f))[DrawShadow(a)] == if a in ts && IsTracking(f, a) then 1 else 0
    decreases |ts|
  {
    if ts != [] {
      var init := ts[..|ts| - 1];
      var last := ts[|ts| - 1];
      assert ts == init + [last];
      assert CreationOrdered(init);
      AttachmentDrawnOnce(init, f, a);
      var piece: seq<Effect> := if IsTracking(f, last) then [DrawObject(last), DrawShadow(last)] else [];
      assert AttachmentDraws(ts, f) == AttachmentDraws(init, f) + piece;
      assert multiset(AttachmentDraws(ts, f)) == multiset(AttachmentDraws(init, f)) + multiset(piece);
      NewestNotListedEarlier(ts);
      assert a in ts <==> a in init || a == last;
    }
  }

  /** In an oldest-first list, the newest entry does not occur earlier. */
  lemma NewestNotListedEarlier(ts: seq<Attachment>)
    requires CreationOrdered(ts) && ts != []
    ensures ts[|ts| - 1] !in ts[..|ts| - 1]
  {
    var init := ts[..|ts| - 1];
    forall k | 0 <= k < |init| ensures init[k] != ts[|ts| - 1] {
      assert init[k].anchor.serial < ts[|ts| - 1].anchor.serial;
    }
  }

  /** Every object draw is immediately followed by the shadow draw of the same
      attachment. */
  predicate ShadowFollowsObject(t: seq<Effect>) {
    forall i :: 0 <= i < |t| && t[i].DrawObject? ==> i + 1 < |t| && t[i + 1] == DrawShadow(t[i].attachment)
  }

  /** In the attachment draws, each object draw is followed by its shadow,
      and objects are drawn exactly for the tracking attachments. */
  lemma AttachmentDrawsShadowFollowsObject(ts: seq<Attachment>, f: Frame)
    ensures ShadowFollowsObject(AttachmentDraws(ts, f))
    ensures forall a :: DrawObject(a) in AttachmentDraws(ts, f) <==> a in ts && IsTracking(f, a)
  {
  }

  /** Two pass-ordered traces, the first entirely at earlier passes, join
      into a pass-ordered trace. */
  lemma OrderedConcat(a: seq<Effect>, b: seq<Effect>)
    requires PassOrdered(a) && PassOrdered(b)
    requires forall i, j :: 0 <= i < |a| && 0 <= j < |b| ==> Rank(a[i]) <= Rank(b[j])
    ensures PassOrdered(a + b)
  {
  }

  /** The passes before the attachment draws of a tracking tick. */
  function FixedPasses(s: ActivityState, f: Frame): seq<Effect> {
    [DrawBackground, DrawPointCloud] +
    (if s.loadingShown && PlaneFound(f) then [HideLoading] else []) +
    [DrawPlanes]
  }

  lemma RenderPassesSplit(s: ActivityState, f: Frame)
    ensures RenderPasses(s, f) ==
      if f.state == NotTracking then [DrawBackground]
      else FixedPasses(s, f) + AttachmentDraws(s.touches, f)
  {
  }

  /** The draw passes come background, point cloud, loading check, planes,
      then objects. */
  lemma RenderPassesOrdered(s: ActivityState, f: Frame)
    ensures PassOrdered(RenderPasses(s, f))
  {
  }

  /** Background, point cloud and planes are drawn exactly once per tick that
      gets to draw, and the loading check requests a hide at most once. */
  lemma RenderPassesCounts(s: ActivityState, f: Frame)
    ensures multiset(RenderPasses(s, f))[DrawBackground] == 1
    ensures f.state == Tracking ==>
      multiset(RenderPasses(s, f))[DrawPointCloud] == 1 &&
      multiset(RenderPasses(s, f))[DrawPlanes] == 1 &&
      multiset(RenderPasses(s, f))[HideLoading] == (if s.loadingShown && PlaneFound(f) then 1 else 0)
  {
    RenderPassesSplit(s, f);
    if f.state == Tracking {
      var d := AttachmentDraws(s.touches, f);
      var pre := FixedPasses(s, f);
      var m := multiset(pre + d);
      assert m == multiset(pre) + multiset(d);
      NoPassInObjectDraws(d);
      FixedPassesCounts(s, f);
    }
  }

  lemma FixedPassesCounts(s: ActivityState, f: Frame)
    ensures multiset(FixedPasses(s, f))[DrawBackground] == 1
    ensures multiset(FixedPasses(s, f))[DrawPointCloud] == 1
    ensures multiset(FixedPasses(s, f))[DrawPlanes] == 1
    ensures multiset(FixedPasses(s, f))[HideLoading] == if s.loadingShown && PlaneFound(f) then 1 else 0
  {
  }

  lemma NoPassInObjectDraws(d: seq<Effect>)
    requires forall i :: 0 <= i < |d| ==> d[i].DrawObject? || d[i].DrawShadow?
    ensures multiset(d)[DrawBackground] == 0 && multiset(d)[DrawPointCloud] == 0
    ensures multiset(d)[DrawPlanes] == 0 && multiset(d)[HideLoading] == 0
  {
  }

  /** Objects are drawn, each followed by its shadow, exactly for the tracking
      attachments of a tracking frame. */
  lemma RenderPassesObjects(s: ActivityState, f: Frame)
    ensures ShadowFollowsObject(RenderPasses(s, f))
    ensures forall a :: DrawObject(a) in RenderPasses(s, f) <==> f.state == Tracking && a in s.touches && IsTracking(f, a)
  {
    RenderPassesSplit(s, f);
    if f.state == Tracking {
      var d := AttachmentDraws(s.touches, f);
      var pre := FixedPasses(s, f);
      AttachmentDrawsShadowFollowsObject(s.touches, f);
      ShadowFollowsObjectConcat(pre, d);
      assert forall a :: DrawObject(a) !in pre;
    }
  }

  lemma ShadowFollowsObjectConcat(a: seq<Effect>, b: seq<Effect>)
    requires forall i :: 0 <= i < |a| ==> !a[i].DrawObject?
    requires ShadowFollowsObject(b)
    ensures ShadowFollowsObject(a + b)
  {
  }

  /** The placement effects of a tick: the eviction, if any, then the creation. */
  lemma PlacementEffectsOrdered(ts: seq<Attachment>, p: Pose)
    ensures PassOrdered(Eviction(ts) + [AddAnchor(p)])
  {
  }

  /** Every tick keeps the queue and the attachment list within their
      capacities and the attachments oldest first. */
  lemma TickPreservesValid(s: ActivityState, frame: Option<Frame>, addAnchorThrows: bool)
    requires Valid(s)
    ensures Valid(Tick(s, frame, addAnchorThrows).state)
  {
    if frame.Some? {
      var f := frame.value;
      var hit := ChosenHit(f, Poll(s.queue).0);
      if hit.Some? {
        if addAnchorThrows {
          var r := MakeRoom(s.touches);
          assert forall i :: 0 <= i < |r| ==> r[i] == s.touches[if |s.touches| >= AnchorCapacity then i + 1 else i];
        } else {
          AdmitKeepsOrder(s.touches, Attachment(hit.value.plane, Anchor(s.nextAnchor)));
        }
      }
    }
  }

  /** A tick on a frame that is not tracking consumes the oldest tap, leaves
      the attachments alone and draws only the background. */
  lemma NotTrackingDrawsOnlyBackground(s: ActivityState, f: Frame, addAnchorThrows: bool)
    requires f.state == NotTracking
    ensures Tick(s, Some(f), addAnchorThrows).trace == [DrawBackground]
    ensures Tick(s, Some(f), addAnchorThrows).state == s.(queue := if s.queue == [] then [] else s.queue[1..])
  {
  }

  /** The attachment list changes only when a tap was queued, the frame is
      tracking and one of the tap's hits is a plane hit inside its polygon. */
  lemma TouchesChangeOnlyOnQualifyingHit(s: ActivityState, frame: Option<Frame>, addAnchorThrows: bool)
    requires Tick(s, frame, addAnchorThrows).state.touches != s.touches
    ensures frame.Some? && s.queue != [] && frame.value.state == Tracking
    ensures FirstQualifying(frame.value.hitTest(s.queue[0])).Some?
  {
  }

  /** When the tap resolves, the first qualifying hit is the one placed: its
      anchor is created at that hit's pose and appended after any eviction. */
  lemma FirstQualifyingHitPlaced(s: ActivityState, f: Frame, i: nat)
    requires s.queue != [] && f.state == Tracking
    requires FirstQualifying(f.hitTest(s.queue[0])) == Some(i)
    ensures var hit := f.hitTest(s.queue[0])[i];
      var r := Tick(s, Some(f), false);
      && hit.PlaneHit?
      && r.state.touches == Admit(s.touches, Attachment(hit.plane, Anchor(s.nextAnchor)))
      && r.state.nextAnchor == s.nextAnchor + 1
      && r.trace[|Eviction(s.touches)|] == AddAnchor(hit.pose)
  {
  }

  /** A tick adds at most one attachment: all entries but the last were
      already listed. */
  lemma AtMostOneAttachmentAdded(s: ActivityState, frame: Option<Frame>, addAnchorThrows: bool)
    ensures var t := Tick(s, frame, addAnchorThrows).state.touches;
      |t| <= |s.touches| + 1 && forall i :: 0 <= i < |t| - 1 ==> t[i] in s.touches
  {
  }

  /** With 16 attachments listed, a placement first releases the oldest
      anchor, then creates the new one; the list keeps the other entries in
      order, ends with the new one and stays at 16. */
  lemma FullListEvictsOldestFirst(s: ActivityState, f: Frame, i: nat)
    requires |s.touches| == AnchorCapacity
    requires s.queue != [] && f.state == Tracking
    requires FirstQualifying(f.hitTest(s.queue[0])) == Some(i)
    ensures var hit := f.hitTest(s.queue[0])[i];
      var r := Tick(s, Some(f), false);
      && hit.PlaneHit?
      && r.trace[0] == RemoveAnchor(s.touches[0].anchor)
      && r.trace[1] == AddAnchor(hit.pose)
      && r.state.touches == s.touches[1..] + [Attachment(hit.plane, Anchor(s.nextAnchor))]
      && |r.state.touches| == AnchorCapacity
  {
  }

  /** The tick is not atomic: if session.addAnchor throws after a full list
      was trimmed, the tick ends with the list one entry shorter. */
  lemma AbortAfterEvictionLeavesListShorter(s: ActivityState, f: Frame)
    requires |s.touches| == AnchorCapacity
    requires s.queue != [] && f.state == Tracking
    requires FirstQualifying(f.hitTest(s.queue[0])).Some?
    ensures Tick(s, Some(f), true).trace == [RemoveAnchor(s.touches[0].anchor)]
    ensures Tick(s, Some(f), true).state.touches == s.touches[1..]
    ensures |Tick(s, Some(f), true).state.touches| == AnchorCapacity - 1
  {
  }

  /** The only way an attachment leaves the list is capacity eviction: the
      list was full, the attachment was the oldest entry, and its anchor
      release is the tick's first call. */
  lemma RemovedOnlyByEviction(s: ActivityState, frame: Option<Frame>, addAnchorThrows: bool, a: Attachment)
    requires a in s.touches
    requires a !in Tick(s, frame, addAnchorThrows).state.touches
    ensures |s.touches| >= AnchorCapacity
    ensures a == s.touches[0]
    ensures Tick(s, frame, addAnchorThrows).trace[0] == RemoveAnchor(a.anchor)
  {
  }

  /** Every trace follows the fixed pass order: eviction, creation,
      background, point cloud, loading check, planes, objects with shadows. */
  lemma TraceFollowsPassOrder(s: ActivityState, frame: Option<Frame>, addAnchorThrows: bool)
    ensures PassOrdered(Tick(s, frame, addAnchorThrows).trace)
  {
    if frame.Some? {
      var f := frame.value;
      var r := Tick(s, frame, addAnchorThrows);
      var hit := ChosenHit(f, Poll(s.queue).0);
      RenderPassesOrdered(r.state, f);
      if hit.Some? && !addAnchorThrows {
        var pre := Eviction(s.touches) + [AddAnchor(hit.value.pose)];
        var rest := RenderPasses(r.state, f);
        assert r.trace == pre + rest;
        PlacementEffectsOrdered(s.touches, hit.value.pose);
        assert forall i :: 0 <= i < |pre| ==> Rank(pre[i]) <= 1;
        assert forall j :: 0 <= j < |rest| ==> Rank(rest[j]) >= 2 by {
          RenderPassesRanks(r.state, f);
        }
        OrderedConcat(pre, rest);
      }
    }
  }

  lemma RenderPassesRanks(s: ActivityState, f: Frame)
    ensures forall j :: 0 <= j < |RenderPasses(s, f)| ==> Rank(RenderPasses(s, f)[j]) >= 2
  {
  }

  lemma TickTraceSplit(s: ActivityState, f: Frame, addAnchorThrows: bool)
    requires !AddAnchorAborts(s, f, addAnchorThrows)
    ensures Tick(s, Some(f), addAnchorThrows).trace ==
      HandleTap(s, f, addAnchorThrows).calls + RenderPasses(Tick(s, Some(f), addAnchorThrows).state, f)
  {
  }

  /** The passes of a tick that gets past tap handling: the background exactly
      once; on a tracking frame the point cloud and planes exactly once, and a
      hide request exactly when the message shows and an upward-facing plane
      tracks. */
  lemma TickPassCounts(s: ActivityState, f: Frame, addAnchorThrows: bool)
    requires !AddAnchorAborts(s, f, addAnchorThrows)
    ensures var t := Tick(s, Some(f), addAnchorThrows).trace;
      && multiset(t)[DrawBackground] == 1
      && (f.state == Tracking ==>
          && multiset(t)[DrawPointCloud] == 1
          && multiset(t)[DrawPlanes] == 1
          && multiset(t)[HideLoading] == (if s.loadingShown && PlaneFound(f) then 1 else 0))
  {
    var r := Tick(s, Some(f), addAnchorThrows);
    var pre := HandleTap(s, f, addAnchorThrows).calls;
    var rest := RenderPasses(r.state, f);
    TickTraceSplit(s, f, addAnchorThrows);
    RenderPassesCounts(r.state, f);
    CountAfterPlacement(pre, rest, DrawBackground);
    CountAfterPlacement(pre, rest, DrawPointCloud);
    CountAfterPlacement(pre, rest, DrawPlanes);
    CountAfterPlacement(pre, rest, HideLoading);
  }

  lemma CountAfterPlacement(pre: seq<Effect>, rest: seq<Effect>, e: Effect)
    requires forall i :: 0 <= i < |pre| ==> pre[i].RemoveAnchor? || pre[i].AddAnchor?
    requires !e.RemoveAnchor? && !e.AddAnchor?
    ensures multiset(pre + rest)[e] == multiset(rest)[e]
  {
  }

  /** Objects are drawn, each immediately followed by its shadow, for exactly
      the listed attachments that track in a tracking frame. */
  lemma TickObjectDraws(s: ActivityState, f: Frame, addAnchorThrows: bool)
    requires !AddAnchorAborts(s, f, addAnchorThrows)
    ensures var r := Tick(s, Some(f), addAnchorThrows);
      && ShadowFollowsObject(r.trace)
      && forall a :: DrawObject(a) in r.trace <==> f.state == Tracking && a in r.state.touches && IsTracking(f, a)
  {
    var r := Tick(s, Some(f), addAnchorThrows);
    var pre := HandleTap(s, f, addAnchorThrows).calls;
    var rest := RenderPasses(r.state, f);
    TickTraceSplit(s, f, addAnchorThrows);
    RenderPassesObjects(r.state, f);
    ShadowFollowsObjectConcat(pre, rest);
    assert forall a :: DrawObject(a) !in pre;
  }

  /** A tick that ends in the catch-all at session.addAnchor draws nothing. */
  lemma AbortedTickDrawsNothing(s: ActivityState, f: Frame)
    requires AddAnchorAborts(s, f, true)
    ensures forall e :: e in Tick(s, Some(f), true).trace ==> e.RemoveAnchor?
  {
  }

  /**
   * The hide request is not one-shot: the tick never clears the flag itself
   * (hideLoadingMessage clears it later, on the UI thread), so two ticks in a
   * row that both see a tracking upward-facing plane both request the hide.
   */
  lemma HideRequestedUntilUiClearsFlag(s: ActivityState, f: Frame, g: Frame)
    requires s.loadingShown && f.state == Tracking && g.state == Tracking
    requires PlaneFound(f) && PlaneFound(g)
    ensures HideLoading in Tick(s, Some(f), false).trace
    ensures HideLoading in Tick(Tick(s, Some(f), false).state, Some(g), false).trace
  {
  }

  /** On a tracking frame, the draw passes draw each listed tracking
      attachment exactly once, with exactly one shadow. */
  lemma RenderPassesDrawOnce(s: ActivityState, f: Frame, a: Attachment)
    requires CreationOrdered(s.touches) && f.state == Tracking
    requires a in s.touches && IsTracking(f, a)
    ensures multiset(RenderPasses(s, f))[DrawObject(a)] == 1
    ensures multiset(RenderPasses(s, f))[DrawShadow(a)] == 1
  {
    var d := AttachmentDraws(s.touches, f);
    RenderPassesSplit(s, f);
    AttachmentDrawnOnce(s.touches, f, a);
    assert DrawObject(a) !in FixedPasses(s, f) && DrawShadow(a) !in FixedPasses(s, f);
    assert multiset(RenderPasses(s, f)) == multiset(FixedPasses(s, f)) + multiset(d);
  }

  /** From a valid state, a tick that gets past tap handling draws each
      listed tracking attachment exactly once, with exactly one shadow. */
  lemma TickDrawsEachAttachmentOnce(s: ActivityState, f: Frame, addAnchorThrows: bool, a: Attachment)
    requires Valid(s) && f.state == Tracking
    requires !AddAnchorAborts(s, f, addAnchorThrows)
    requires a in Tick(s, Some(f), addAnchorThrows).state.touches && IsTracking(f, a)
    ensures multiset(Tick(s, Some(f), addAnchorThrows).trace)[DrawObject(a)] == 1
    ensures multiset(Tick(s, Some(f), addAnchorThrows).trace)[DrawShadow(a)] == 1
  {
    var r := Tick(s, Some(f), addAnchorThrows);
    TickPreservesValid(s, Some(f), addAnchorThrows);
    TickTraceSplit(s, f, addAnchorThrows);
    var pre := HandleTap(s, f, addAnchorThrows).calls;
    var rest := RenderPasses(r.state, f);
    RenderPassesDrawOnce(r.state, f, a);
    CountAfterPlacement(pre, rest, DrawObject(a));
    CountAfterPlacement(pre, rest, DrawShadow(a));
  }
}
