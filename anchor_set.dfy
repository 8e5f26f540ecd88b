/**
 * The list of placed objects (touches: PlaneAttachment entries in placement
 * order). Its only removal is capacity eviction: when it already holds 16
 * entries, the oldest one is dropped before the new one is appended.
 */
module AnchorSet {
  import opened ArCore
  import opened Wrappers

  const AnchorCapacity: nat := 16

  /** `if (touches.size >= 16) touches.removeAt(0)` */
  function MakeRoom(ts: seq<Attachment>): (r: seq<Attachment>)
    ensures |ts| >= AnchorCapacity ==> [ts[0]] + r == ts
    ensures |ts| < AnchorCapacity ==> r == ts
  {
    if |ts| >= AnchorCapacity then ts[1..] else ts
  }

  /** Placing an attachment: evict the oldest when full, then append. */
  function Admit(ts: seq<Attachment>, a: Attachment): (r: seq<Attachment>)
    ensures |r| == if |ts| >= AnchorCapacity then |ts| else |ts| + 1
    ensures r[|r| - 1] == a
    ensures forall i :: 0 <= i < |r| - 1 ==> r[i] == ts[if |ts| >= AnchorCapacity then i + 1 else i]
  {
    MakeRoom(ts) + [a]
  }

  /** Anchors appear in the order the session created them (oldest first). */
  predicate CreationOrdered(ts: seq<Attachment>) {
    forall i, j :: 0 <= i < j < |ts| ==> ts[i].anchor.serial < ts[j].anchor.serial
  }

  /** Admitting an anchor newer than every listed one keeps the list oldest-first,
      and the list never grows beyond its capacity. */
  lemma AdmitKeepsOrder(ts: seq<Attachment>, a: Attachment)
    requires |ts| <= AnchorCapacity && CreationOrdered(ts)
    requires forall i :: 0 <= i < |ts| ==> ts[i].anchor.serial < a.anchor.serial
    ensures |Admit(ts, a)| <= AnchorCapacity && CreationOrdered(Admit(ts, a))
  {
  }

  /** The last min(|s|, 16) entries of s. */
  function Window(s: seq<Attachment>): (r: seq<Attachment>) {
    s[|s| - Min(|s|, AnchorCapacity)..]
  }

  /** Successive placements, oldest first. */
  function AdmitAll(ts: seq<Attachment>, placed: seq<Attachment>): seq<Attachment>
    decreases |placed|
  {
    if placed == [] then ts
    else Admit(AdmitAll(ts, placed[..|placed| - 1]), placed[|placed| - 1])
  }

  /** After any run of placements the list holds exactly the 16 most recent
      attachments (all of them while fewer were placed), in placement order. */
  lemma {:induction false} AdmitAllKeepsNewest(ts: seq<Attachment>, placed: seq<Attachment>)
    requires |ts| <= AnchorCapacity
    ensures AdmitAll(ts, placed) == Window(ts + placed)
    decreases |placed|
  {
    if placed == [] {
      assert ts + placed == ts;
    } else {
      var init := placed[..|placed| - 1];
      var a := placed[|placed| - 1];
      AdmitAllKeepsNewest(ts, init);
      var w := Window(ts + init);
      assert ts + placed == (ts + init) + [a];
      if |ts + init| >= AnchorCapacity {
        assert w[1..] + [a] == Window((ts + init) + [a]);
      } else {
        assert w == ts + init;
      }
    }
  }

  /** N placements into an empty list leave min(N, 16) attachments. */
  lemma PlacementsFromEmpty(placed: seq<Attachment>)
    ensures |AdmitAll([], placed)| == Min(|placed|, AnchorCapacity)
    ensures AdmitAll([], placed) == placed[|placed| - Min(|placed|, AnchorCapacity)..]
  {
    AdmitAllKeepsNewest([], placed);
    assert [] + placed == placed;
    var w := Window(placed);
    assert w == placed[|placed| - Min(|placed|, AnchorCapacity)..];
    assert |w| == Min(|placed|, AnchorCapacity);
  }
}
