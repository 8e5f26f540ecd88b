# AR example: tap-to-place frame loop

A verified model of the per-frame logic of the AR viewer's `MainActivity`
(`app/src/main/java/grando/natan/arexample/MainActivity.kt`). Each frame, `onDrawFrame` polls at most one
queued tap. On a tracking frame it resolves the tap to the first plane hit
inside the plane's polygon and anchors a placed object there. The list of
placed objects is capped at 16 by evicting the oldest. Then the frame is drawn
in a fixed order: camera background, point cloud, a check that hides the
"Searching for surfaces..." message, detected planes, and an object plus its
shadow for each tracking attachment.

ARCore values (frames, hit results, planes, anchors, poses) are opaque
datatypes that keep only an identity, a tracking state, a kind and an
in-polygon flag (`ar_core.dfy`). A tick is specified by the function
`FrameLoop.Tick`. It maps the activity state (tap queue, attachment list,
loading-message flag, next anchor serial) and the frame to the new state and
to the ordered trace of calls the tick makes: `RemoveAnchor`, `AddAnchor`,
`DrawBackground`, `DrawPointCloud`, `HideLoading`, `DrawPlanes`,
`DrawObject` and `DrawShadow`. The class `Activity.MainActivity` holds the
same state in fields. Its `OnDrawFrame` keeps the Kotlin method's loops (the hit
scan, the plane scan and the attachment loop) and is proved to compute exactly
`Tick`. The lemmas in `tick_properties.dfy` and `activity_runs.dfy` prove
what the code promises about bounds, FIFO order, eviction, gating and draw
order.

Modules:
- `Wrappers`, `ArCore`: the optional value and the opaque ARCore values.
- `TapQueue`: the 16-slot tap queue: offer drops a tap when full, poll takes the head.
- `TapResolution`: the first qualifying hit-test candidate.
- `AnchorSet`: the capped attachment list and its eviction.
- `FrameLoop`: the tick as a function.
- `TickProperties`: what one tick guarantees.
- `ActivityRuns`: interleavings of taps, frames and UI-thread runnables.
- `Activity`: the `MainActivity` class and its methods.

## Loading message and the catch-all

The comment at line 239 says to hide the loading message once at least one
plane is detected. The code does not make that a one-time event, and the
model follows the code:
- The check at lines 240-247 runs on every tick that gets past tap handling
  on a TRACKING frame, while `loadingMessageSnackbar` is non-null. A
  NOT_TRACKING frame returns at 220-222, and a tick whose `session.update()`
  or `session.addAnchor` throws ends in the catch-all, before line 240.
- `hideLoadingMessage` clears that field later, on the UI thread (288-291).
- So consecutive ticks can each request the hide (`HideRequestedUntilUiClearsFlag`).
- `showLoadingMessage` runs again on every camera-permission grant (112-113).

The tick never clears the flag itself (`FrameLoop.Tick` ensures that).

The catch-all exists to avoid crashing the application (comment at line 271).
It does not roll the tick back. The eviction (199-200) happens before
`session.addAnchor` (208). If that call throws, the tick ends with the list
one entry shorter (`AbortAfterEvictionLeavesListShorter`).

## Model

| member | source | states |
|---|---|---|
| `TapQueue.OfferAllKeepsEarliest` | app/src/main/java/grando/natan/arexample/MainActivity.kt:136-139 | a burst of offers keeps exactly the earliest taps that fit in the 16 slots and drops every later one |
| `TapQueue.Offer` | app/src/main/java/grando/natan/arexample/MainActivity.kt:138 | offer accepts the tap exactly when fewer than 16 are queued, appending it; otherwise the queue is unchanged; the queue stays within 16 (bursts: `OfferAllKeepsEarliest`) |
| `TapQueue.Poll` | app/src/main/java/grando/natan/arexample/MainActivity.kt:191 | poll yields a tap exactly when the queue is non-empty, and then that tap is the head and the rest is what remains (interleavings: `ReplayIsFifo`) |
| `TapQueue.ReplayIsFifo` | app/src/main/java/grando/natan/arexample/MainActivity.kt:43 | under any interleaving of offers and polls, the polled taps followed by those still queued are the initial queue followed by the accepted taps, in order; the queue never exceeds 16 |
| `TapResolution.FirstQualifying` | app/src/main/java/grando/natan/arexample/MainActivity.kt:193-212 | the chosen index is a plane hit inside its polygon with no qualifying candidate before it; there is no choice exactly when no candidate qualifies |
| `TapResolution.Qualifies` | app/src/main/java/grando/natan/arexample/MainActivity.kt:195 | a candidate qualifies exactly when it is a plane hit inside the plane's polygon (used by `FirstQualifying`) |
| `TapResolution.FartherHitsIgnored` | app/src/main/java/grando/natan/arexample/MainActivity.kt:210-211 | once a candidate qualifies, candidates after it cannot change the choice |
| `AnchorSet.Admit` | app/src/main/java/grando/natan/arexample/MainActivity.kt:198-208 | placing keeps the length when the list has 16 or more entries (oldest dropped) and otherwise grows it by one; the new attachment is last and the others keep their relative order |
| `AnchorSet.MakeRoom` | app/src/main/java/grando/natan/arexample/MainActivity.kt:198-200 | with 16 or more entries exactly the oldest entry is dropped; with fewer the list is unchanged |
| `AnchorSet.AdmitKeepsOrder` | app/src/main/java/grando/natan/arexample/MainActivity.kt:198-208 | admitting an anchor newer than all listed ones keeps the list within 16 and oldest first |
| `AnchorSet.AdmitAllKeepsNewest` | app/src/main/java/grando/natan/arexample/MainActivity.kt:196-208 | after any run of placements the list is exactly the last 16 (or fewer) attachments, in placement order |
| `AnchorSet.PlacementsFromEmpty` | app/src/main/java/grando/natan/arexample/MainActivity.kt:196-208 | N placements into an empty list leave min(N, 16) attachments, the newest ones |
| `FrameLoop.ChosenHit` | app/src/main/java/grando/natan/arexample/MainActivity.kt:192-195 | a tap resolves only to a plane hit inside its polygon |
| `FrameLoop.HandleTap` | app/src/main/java/grando/natan/arexample/MainActivity.kt:189-214 | the tap-handling calls are only anchor releases and creations |
| `FrameLoop.AttachmentDraws` | app/src/main/java/grando/natan/arexample/MainActivity.kt:254-268 | the attachment loop only draws objects and shadows, at most two draws per attachment |
| `FrameLoop.Eviction` | app/src/main/java/grando/natan/arexample/MainActivity.kt:198-199 | an anchor is released exactly when `MakeRoom` drops an entry, and it is the anchor of that oldest entry |
| `FrameLoop.PlaneFound` | app/src/main/java/grando/natan/arexample/MainActivity.kt:240-247 | some listed plane is HORIZONTAL_UPWARD_FACING and tracking in this frame (the scan with `break` is proved equal to it in `DrawPasses`) |
| `FrameLoop.RenderPasses` | app/src/main/java/grando/natan/arexample/MainActivity.kt:216-268 | the background is always drawn first, and nothing else is drawn exactly when the camera is not tracking; its order, counts and object draws are stated by `RenderPassesOrdered`, `RenderPassesCounts` and `RenderPassesObjects` |
| `ArCore.IsTracking` | app/src/main/java/grando/natan/arexample/MainActivity.kt:255 | an attachment is drawn only while both its plane and its anchor are tracking (used by `AttachmentDraws`) |
| `FrameLoop.Tick` | app/src/main/java/grando/natan/arexample/MainActivity.kt:177-275 | a tick whose session.update() throws changes nothing; otherwise it removes exactly the oldest queued tap, even when the frame is not tracking; it never changes the loading-message flag |
| `TickProperties.Tracked` | app/src/main/java/grando/natan/arexample/MainActivity.kt:254-257 | the attachments drawn are exactly the listed ones that are tracking |
| `TickProperties.AttachmentDrawsArePairs` | app/src/main/java/grando/natan/arexample/MainActivity.kt:254-268 | the attachment draws are, for the k-th tracking attachment in list order, an object draw at position 2k and its shadow draw at 2k+1 |
| `TickProperties.TrackedKeepsOrder` | app/src/main/java/grando/natan/arexample/MainActivity.kt:254-257 | the tracking attachments are drawn in list order, oldest anchor first |
| `TickProperties.AttachmentDrawnOnce` | app/src/main/java/grando/natan/arexample/MainActivity.kt:254-268 | in a list of distinct anchors, each tracking attachment gets exactly one object draw and one shadow draw, the others none |
| `TickProperties.NewestNotListedEarlier` | app/src/main/java/grando/natan/arexample/MainActivity.kt:206-208 | in an oldest-first list of attachments, the newest one appears only once, at the end |
| `TickProperties.RenderPassesDrawOnce` | app/src/main/java/grando/natan/arexample/MainActivity.kt:254-268 | on a tracking frame, the draw passes draw each listed tracking attachment exactly once, with exactly one shadow |
| `TickProperties.AttachmentDrawsShadowFollowsObject` | app/src/main/java/grando/natan/arexample/MainActivity.kt:254-268 | each object draw is immediately followed by the shadow draw of the same attachment; an object is drawn exactly for the tracking attachments |
| `TickProperties.RenderPassesOrdered` | app/src/main/java/grando/natan/arexample/MainActivity.kt:216-268 | the draw passes run background, point cloud, loading check, planes, then objects |
| `TickProperties.RenderPassesCounts` | app/src/main/java/grando/natan/arexample/MainActivity.kt:216-250 | the background is drawn once; on a tracking frame the point cloud and the planes once each, and a hide request exactly when the message shows and an upward-facing plane tracks |
| `TickProperties.RenderPassesObjects` | app/src/main/java/grando/natan/arexample/MainActivity.kt:219-268 | objects (each followed by its shadow) are drawn only on tracking frames, exactly for the tracking attachments |
| `TickProperties.TickPreservesValid` | app/src/main/java/grando/natan/arexample/MainActivity.kt:191-211 | every tick keeps the queue and the list within 16 and the anchors oldest first |
| `TickProperties.NotTrackingDrawsOnlyBackground` | app/src/main/java/grando/natan/arexample/MainActivity.kt:191-222 | on a frame that is not tracking, the tick consumes the oldest tap, leaves the attachments unchanged and draws only the background |
| `TickProperties.TouchesChangeOnlyOnQualifyingHit` | app/src/main/java/grando/natan/arexample/MainActivity.kt:191-212 | the list changes only when a tap was queued, the frame is tracking and some hit of the tap qualifies |
| `TickProperties.FirstQualifyingHitPlaced` | app/src/main/java/grando/natan/arexample/MainActivity.kt:192-211 | when the tap resolves, the attachment placed is the one at the first qualifying hit, and its anchor is created at that hit's pose after any eviction |
| `TickProperties.AtMostOneAttachmentAdded` | app/src/main/java/grando/natan/arexample/MainActivity.kt:193-213 | a tick adds at most one attachment; every entry but the last was already listed |
| `TickProperties.FullListEvictsOldestFirst` | app/src/main/java/grando/natan/arexample/MainActivity.kt:198-208 | with 16 attachments, the oldest anchor is released first, then the new one is created; the list is the old tail plus the new attachment and stays at 16 |
| `TickProperties.AbortAfterEvictionLeavesListShorter` | app/src/main/java/grando/natan/arexample/MainActivity.kt:198-208 | if session.addAnchor throws after the eviction, the tick ends with the list one shorter and only the release made |
| `TickProperties.RemovedOnlyByEviction` | app/src/main/java/grando/natan/arexample/MainActivity.kt:199-200 | an attachment leaves the list only when the list held 16 or more entries, as the oldest entry, with its anchor release as the tick's first call |
| `TickProperties.TraceFollowsPassOrder` | app/src/main/java/grando/natan/arexample/MainActivity.kt:183-268 | every trace follows the order: eviction, creation, background, point cloud, loading check, planes, objects and shadows |
| `TickProperties.TickPassCounts` | app/src/main/java/grando/natan/arexample/MainActivity.kt:216-250 | in a tick that gets past tap handling the background is drawn once; on a tracking frame the point cloud and planes once each, and the hide is requested exactly when the message shows and an upward-facing plane tracks |
| `TickProperties.TickObjectDraws` | app/src/main/java/grando/natan/arexample/MainActivity.kt:254-268 | in a tick that gets past tap handling, each object draw is immediately followed by the same attachment's shadow, and objects are drawn exactly for the listed tracking attachments of a tracking frame |
| `TickProperties.TickDrawsEachAttachmentOnce` | app/src/main/java/grando/natan/arexample/MainActivity.kt:254-268 | from a valid state, a tick that does not abort draws each listed tracking attachment exactly once, with exactly one shadow |
| `TickProperties.AbortedTickDrawsNothing` | app/src/main/java/grando/natan/arexample/MainActivity.kt:206-273 | a tick that ends at a throwing session.addAnchor makes no draw call |
| `TickProperties.HideRequestedUntilUiClearsFlag` | app/src/main/java/grando/natan/arexample/MainActivity.kt:240-247 | two ticks in a row that see a tracking upward-facing plane both request the hide, because only the UI-thread runnable clears the flag |
| `ActivityRuns.RunPreservesValid` | app/src/main/java/grando/natan/arexample/MainActivity.kt:136-211 | any interleaving of taps, frames and loading-message runnables keeps both bounds and the anchors oldest first |
| `ActivityRuns.KeptUntilEvicted` | app/src/main/java/grando/natan/arexample/MainActivity.kt:199-200 | over any run, an attachment stays listed unless its anchor was released |
| `ActivityRuns.DrawnAgainOnceTracking` | app/src/main/java/grando/natan/arexample/MainActivity.kt:254-257 | an attachment that lost tracking is still listed and is drawn again, object and shadow, by the first tick whose frame tracks it |
| `Activity.MainActivity.constructor` | app/src/main/java/grando/natan/arexample/MainActivity.kt:43-44 | the activity starts with no queued taps, no attachments and no loading message, a valid state |
| `Activity.MainActivity.OnSingleTap` | app/src/main/java/grando/natan/arexample/MainActivity.kt:136-139 | the tap is appended when fewer than 16 are queued, otherwise dropped; nothing else changes |
| `Activity.MainActivity.ShowLoadingMessage` | app/src/main/java/grando/natan/arexample/MainActivity.kt:277-285 | the loading message is shown; nothing else changes |
| `Activity.MainActivity.HideLoadingMessage` | app/src/main/java/grando/natan/arexample/MainActivity.kt:287-292 | the loading message is cleared; nothing else changes |
| `Activity.MainActivity.OnDrawFrame` | app/src/main/java/grando/natan/arexample/MainActivity.kt:177-275 | the new fields and the calls made are exactly those of FrameLoop.Tick |
| `Activity.MainActivity.HandleTap` | app/src/main/java/grando/natan/arexample/MainActivity.kt:189-214 | the polled queue, the list and the calls made by the hit scan are exactly those of FrameLoop.HandleTap |
| `Activity.MainActivity.DrawPasses` | app/src/main/java/grando/natan/arexample/MainActivity.kt:216-268 | the draw calls are exactly FrameLoop.RenderPasses of the current state |

## Left out

- OpenGL and renderer internals: `glClear`, `glViewport`, asset loading in
  `onSurfaceCreated` (141-168), `onSurfaceChanged` (170-175) and the renderers'
  draw bodies. Each draw is a call in the trace.
- ARCore internals: `session.update`, `hitTest`, `addAnchor`,
  `removeAnchors`, `getAllPlanes`, poses, projection and view matrices,
  and the light estimate. These are floating-point data or code this model
  does not include. A frame carries the hit test, the plane list and which
  planes and anchors track. The anchors the session creates are numbered by
  the model in creation order.
- PlaneAttachment is not part of this model. Its `isTracking` is taken to
  mean that both the plane and the anchor report TRACKING.
- Threads: `ArrayBlockingQueue` is modelled as a sequential bounded
  sequence. The `runOnUiThread` bodies of the loading-message functions are
  separate events that can come at any point of a run.
- Snackbar display, colour and text (280-283).
- Activity lifecycle, permissions, full-screen flags and toasts (46-134).
- The catch-all handler (270-273) is modelled for two faults only, without
  its logging (`Log.e`, 272):
  `session.update()` throwing and `session.addAnchor` throwing. A throw from
  any other call (renderers, `removeAnchors`, `getAllPlanes`) is not
  modelled.
- The `session == null` early return (178), a setup guard.
- The boolean result of `offer`, which `onSingleTap` ignores.
