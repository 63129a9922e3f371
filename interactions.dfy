/**
 * The canvas selection and drag engine (`SceneInteractions`): which selected
 * items are targets at the current time, rubber-band (marquee) selection, and
 * dragging the targets with a shared delta that is committed in one batched
 * `EDIT_OBJECT` payload.
 *
 * Each event handler is one atomic method of `SceneInteractions`. The DOM is
 * supplied from outside: the scene item elements are the array `items`, the
 * element under the pointer is `onItem`, live bounding rectangles are `rects`,
 * and `getTargetById` is the map `lookup`. Calls to the external state manager
 * and to `dispatch` are recorded in the ghost logs `selections` and `edits`.
 */
module Interactions {
  import opened Wrappers
  import opened Store
  import SceneIds

  /** A point in client (screen) pixels. */
  datatype Point = Point(x: real, y: real)

  /** The marquee rectangle `{x, y, width, height}` in client pixels. */
  datatype Box = Box(x: real, y: real, width: real, height: real)

  /** A bounding client rectangle of a scene item. */
  datatype Rect = Rect(left: real, top: real, right: real, bottom: real)

  /**
   * A scene item element: its class list (which encodes its id), its `left` and
   * `top` style fields (`None` when the style text does not parse as a number),
   * and its preview `transform` (`None` for the empty transform).
   */
  datatype SceneItem = SceneItem(className: string, left: Option<real>, top: Option<real>, transform: Option<Point>)

  /** One entry of the drag snapshot `elementsData`, keyed by the element `element`. */
  datatype DragData = DragData(element: nat, id: string, initialLeft: real, initialTop: real, transform: Point)

  /** One `stateManager.updateState({ activeIds }, { updateHistory, kind })` call. */
  datatype SelectionUpdate = SelectionUpdate(activeIds: seq<string>, updateHistory: bool, kind: string)

  /** A committed position in the `EDIT_OBJECT` payload (`details.left`, `details.top`, in px). */
  datatype Position = Position(left: real, top: real)

  /** The `kind` every selection update of this component carries. */
  const SelectionKind: string := "layer:selection"

  /** The marquee size threshold, in pixels. */
  const Threshold: real := 5.0

  // ---------------------------------------------------------------------------
  // Visibility filter
  // ---------------------------------------------------------------------------

  /** Item `id` exists and its display window contains time `t`, both ends included. */
  predicate VisibleAt(trackItems: map<string, TrackItem>, id: string, t: real)
  {
    id in trackItems && trackItems[id].display.from <= t && trackItems[id].display.to >= t
  }

  /** Only an item with a non-empty window is ever visible, and it is visible at both ends of it. */
  lemma VisibleAtEnds(trackItems: map<string, TrackItem>, id: string, t: real)
    ensures VisibleAt(trackItems, id, t) ==> id in trackItems && trackItems[id].display.from <= trackItems[id].display.to
    ensures id in trackItems && trackItems[id].display.from <= trackItems[id].display.to ==>
      VisibleAt(trackItems, id, trackItems[id].display.from) && VisibleAt(trackItems, id, trackItems[id].display.to)
  {
  }

  /** The selected ids that are visible at `t`, in selection order. */
  function VisibleIds(activeIds: seq<string>, trackItems: map<string, TrackItem>, t: real): (r: seq<string>)
    ensures |r| <= |activeIds|
    ensures forall id :: id in r <==> id in activeIds && VisibleAt(trackItems, id, t)
  {
    if activeIds == [] then []
    else
      (if VisibleAt(trackItems, activeIds[0], t) then [activeIds[0]] else [])
      + VisibleIds(activeIds[1..], trackItems, t)
  }

  /** The filter keeps selection order: it distributes over concatenation. */
  lemma {:induction false} VisibleIdsAppend(a: seq<string>, b: seq<string>, trackItems: map<string, TrackItem>, t: real)
    ensures VisibleIds(a + b, trackItems, t) == VisibleIds(a, trackItems, t) + VisibleIds(b, trackItems, t)
  {
    if a == [] {
      assert a + b == b;
    } else {
      assert (a + b)[1..] == a[1..] + b;
      VisibleIdsAppend(a[1..], b, trackItems, t);
    }
  }

  /** Filtering an already filtered selection again changes nothing. */
  lemma {:induction false} VisibleIdsIdempotent(activeIds: seq<string>, trackItems: map<string, TrackItem>, t: real)
    ensures VisibleIds(VisibleIds(activeIds, trackItems, t), trackItems, t) == VisibleIds(activeIds, trackItems, t)
  {
    if activeIds != [] {
      var head := if VisibleAt(trackItems, activeIds[0], t) then [activeIds[0]] else [];
      VisibleIdsAppend(head, VisibleIds(activeIds[1..], trackItems, t), trackItems, t);
      VisibleIdsIdempotent(activeIds[1..], trackItems, t);
    }
  }

  /** `getTargetById` over the ids, dropping the ids that resolve to no element. */
  function ResolveTargets(ids: seq<string>, lookup: map<string, nat>): (r: seq<nat>)
    ensures |r| <= |ids|
    ensures forall e :: e in r <==> exists id :: id in ids && id in lookup && lookup[id] == e
  {
    if ids == [] then []
    else
      (if ids[0] in lookup then [lookup[ids[0]]] else []) + ResolveTargets(ids[1..], lookup)
  }

  /** Resolving keeps the order of the ids: it distributes over concatenation. */
  lemma {:induction false} ResolveTargetsAppend(a: seq<string>, b: seq<string>, lookup: map<string, nat>)
    ensures ResolveTargets(a + b, lookup) == ResolveTargets(a, lookup) + ResolveTargets(b, lookup)
  {
    if a == [] {
      assert a + b == b;
    } else {
      assert (a + b)[1..] == a[1..] + b;
      ResolveTargetsAppend(a[1..], b, lookup);
    }
  }

  /** One id resolves to its element, or to nothing when the lookup misses. */
  lemma ResolveTargetsSingle(id: string, lookup: map<string, nat>)
    ensures ResolveTargets([id], lookup) == if id in lookup then [lookup[id]] else []
  {
  }

  /** `time || getCurrentTime()`: an absent or zero time falls back to the player's time. */
  function EffectiveTime(time: Option<real>, playerTime: real): real
  {
    if time.Some? && time.value != 0.0 then time.value else playerTime
  }

  /** The time used is the player's or a non-zero given time; an absent or zero time always means the player's. */
  lemma EffectiveTimeFallsBack(time: Option<real>, playerTime: real)
    ensures EffectiveTime(time, playerTime) == playerTime
         || (time == Some(EffectiveTime(time, playerTime)) && EffectiveTime(time, playerTime) != 0.0)
    ensures time.None? || time == Some(0.0) ==> EffectiveTime(time, playerTime) == playerTime
    ensures time.Some? && time.value != 0.0 ==> EffectiveTime(time, playerTime) == time.value
  {
  }

  /** The time a `seeked` event carries: `frame / fps * 1000` milliseconds. */
  function SeekTime(frame: int, fps: real): (ms: real)
    requires fps > 0.0
    ensures ms * fps == frame as real * 1000.0
    ensures frame == 0 <==> ms == 0.0
    ensures frame > 0 ==> ms > 0.0
  {
    frame as real / fps * 1000.0
  }

  /** The targets `updateTargets(time)` computes. */
  function TargetsAt(activeIds: seq<string>, trackItems: map<string, TrackItem>, lookup: map<string, nat>,
                     time: Option<real>, playerTime: real): (r: seq<nat>)
    ensures forall e :: e in r <==>
      exists id :: id in activeIds && VisibleAt(trackItems, id, EffectiveTime(time, playerTime))
                   && id in lookup && lookup[id] == e
  {
    ResolveTargets(VisibleIds(activeIds, trackItems, EffectiveTime(time, playerTime)), lookup)
  }

  /** The targets of the selected ids `a + b` are those of `a` followed by those of `b`. */
  lemma TargetsAtAppend(a: seq<string>, b: seq<string>, trackItems: map<string, TrackItem>, lookup: map<string, nat>,
                        time: Option<real>, playerTime: real)
    ensures TargetsAt(a + b, trackItems, lookup, time, playerTime)
         == TargetsAt(a, trackItems, lookup, time, playerTime) + TargetsAt(b, trackItems, lookup, time, playerTime)
  {
    var t := EffectiveTime(time, playerTime);
    VisibleIdsAppend(a, b, trackItems, t);
    ResolveTargetsAppend(VisibleIds(a, trackItems, t), VisibleIds(b, trackItems, t), lookup);
  }

  /** Targets are elements the lookup can return, so they stay below any bound its values respect. */
  lemma TargetsAtBounded(activeIds: seq<string>, trackItems: map<string, TrackItem>, lookup: map<string, nat>,
                         time: Option<real>, playerTime: real, n: nat)
    requires forall id :: id in lookup ==> lookup[id] < n
    ensures forall k :: 0 <= k < |TargetsAt(activeIds, trackItems, lookup, time, playerTime)| ==>
      TargetsAt(activeIds, trackItems, lookup, time, playerTime)[k] < n
  {
    var r := TargetsAt(activeIds, trackItems, lookup, time, playerTime);
    assert forall k :: 0 <= k < |r| ==> r[k] in r;
  }

  /** A seek to frame 0 is not a seek time at all: the player's current time is used. */
  lemma SeekToFirstFrameUsesPlayerTime(fps: real, playerTime: real, activeIds: seq<string>,
                                       trackItems: map<string, TrackItem>, lookup: map<string, nat>)
    requires fps > 0.0
    ensures TargetsAt(activeIds, trackItems, lookup, Some(SeekTime(0, fps)), playerTime)
         == TargetsAt(activeIds, trackItems, lookup, None, playerTime)
  {
  }

  // ---------------------------------------------------------------------------
  // Marquee geometry and hit test
  // ---------------------------------------------------------------------------

  /** The box spanning the press point `start` and the current point `p`. */
  function SpanBox(start: Point, p: Point): (b: Box)
    ensures b.width >= 0.0 && b.height >= 0.0
    ensures b.x <= start.x <= b.x + b.width && b.x <= p.x <= b.x + b.width
    ensures b.y <= start.y <= b.y + b.height && b.y <= p.y <= b.y + b.height
    ensures (b.x == start.x && b.x + b.width == p.x) || (b.x == p.x && b.x + b.width == start.x)
    ensures (b.y == start.y && b.y + b.height == p.y) || (b.y == p.y && b.y + b.height == start.y)
  {
    Box(if start.x <= p.x then start.x else p.x,
        if start.y <= p.y then start.y else p.y,
        if p.x >= start.x then p.x - start.x else start.x - p.x,
        if p.y >= start.y then p.y - start.y else start.y - p.y)
  }

  /** A rectangle and the box overlap with positive area (strict comparisons). */
  predicate Overlaps(r: Rect, b: Box): (o: bool)
    ensures r.left < r.right && r.top < r.bottom && b.width > 0.0 && b.height > 0.0 ==>
      (o <==> && (if r.left > b.x then r.left else b.x) < (if r.right < b.x + b.width then r.right else b.x + b.width)
              && (if r.top > b.y then r.top else b.y) < (if r.bottom < b.y + b.height then r.bottom else b.y + b.height))
  {
    r.left < b.x + b.width && r.right > b.x && r.top < b.y + b.height && r.bottom > b.y
  }

  /** Strictly increasing element indices. */
  predicate Increasing(s: seq<nat>)
  {
    forall j, k :: 0 <= j < k < |s| ==> s[j] < s[k]
  }

  /** The items among the first `n` whose rectangles overlap `box`, in document order. */
  function Hits(rects: seq<Rect>, box: Box, n: nat): (r: seq<nat>)
    requires n <= |rects|
    ensures Increasing(r)
    ensures forall k :: 0 <= k < |r| ==> r[k] < n
    ensures forall i :: i in r <==> 0 <= i < n && Overlaps(rects[i], box)
  {
    if n == 0 then []
    else Hits(rects, box, n - 1) + (if Overlaps(rects[n - 1], box) then [n - 1] else [])
  }

  /** The forEach over all scene items that collects those overlapping the box. */
  method HitTest(rects: seq<Rect>, box: Box) returns (hits: seq<nat>)
    ensures hits == Hits(rects, box, |rects|)
  {
    hits := [];
    var i := 0;
    while i < |rects|
      invariant 0 <= i <= |rects|
      invariant hits == Hits(rects, box, i)
    {
      if Overlaps(rects[i], box) {
        hits := hits + [i];
      }
      i := i + 1;
    }
  }

  /** The ids of the given elements, read from their class lists. */
  function IdsOf(scene: seq<SceneItem>, elements: seq<nat>): (ids: seq<string>)
    requires forall k :: 0 <= k < |elements| ==> elements[k] < |scene|
    ensures |ids| == |elements|
    ensures forall k :: 0 <= k < |ids| ==> ' ' !in ids[k]
    ensures forall k :: 0 <= k < |ids| ==>
      (ids[k] != "" <==> exists i: nat :: SceneIds.MatchAt(scene[elements[k]].className, i))
  {
    seq(|elements|, k requires 0 <= k < |elements| => SceneIds.GetIdFromClassName(scene[elements[k]].className))
  }

  /** An element tagged `designcombo-scene-item id-<id>` contributes `<id>` to the selection, in its place. */
  lemma IdsOfTaggedElement(scene: seq<SceneItem>, elements: seq<nat>, k: nat,
                           prefix: string, id: string, rest: string)
    requires forall j :: 0 <= j < |elements| ==> elements[j] < |scene|
    requires k < |elements|
    requires scene[elements[k]].className == prefix + SceneIds.Marker + id + rest
    requires id != "" && ' ' !in id
    requires rest == "" || rest[0] == ' '
    requires forall j: nat :: !SceneIds.MarkerAt(prefix, j)
    ensures IdsOf(scene, elements)[k] == id
  {
    SceneIds.RoundTrip(prefix, id, rest);
  }

  // ---------------------------------------------------------------------------
  // Drag snapshot and commit
  // ---------------------------------------------------------------------------

  /** The elements a snapshot holds. */
  function ElementsOf(data: seq<DragData>): set<nat>
  {
    set d | d in data :: d.element
  }

  /** No element appears twice (the snapshot is a Map keyed by element). */
  predicate DistinctElements(data: seq<DragData>)
  {
    forall j, k :: 0 <= j < k < |data| ==> data[j].element != data[k].element
  }

  /** Every entry carries the same preview translation. */
  predicate Lockstep(data: seq<DragData>)
  {
    forall j, k :: 0 <= j < |data| && 0 <= k < |data| ==> data[j].transform == data[k].transform
  }

  /** The snapshot entry of element `e`: its id, `parseFloat(style) || 0`, no translation. */
  function Entry(scene: seq<SceneItem>, e: nat): DragData
    requires e < |scene|
  {
    DragData(e, SceneIds.GetIdFromClassName(scene[e].className),
             scene[e].left.GetOr(0.0), scene[e].top.GetOr(0.0), Point(0.0, 0.0))
  }

  /**
   * An entry starts untranslated, with a space-free id, and with the element's
   * `left`/`top` where they parse; committing it at once puts the element at
   * those positions, 0 where they do not parse.
   */
  lemma EntryReadsElement(scene: seq<SceneItem>, e: nat)
    requires e < |scene|
    ensures Entry(scene, e).element == e && Entry(scene, e).transform == Point(0.0, 0.0)
    ensures ' ' !in Entry(scene, e).id
    ensures scene[e].left.Some? ==> Entry(scene, e).initialLeft == scene[e].left.value
    ensures scene[e].top.Some? ==> Entry(scene, e).initialTop == scene[e].top.value
    ensures CommittedPosition(Entry(scene, e)) == Position(scene[e].left.GetOr(0.0), scene[e].top.GetOr(0.0))
  {
  }

  /**
   * `elementsData` after `targets.forEach(t => elementsData.set(t, ...))`: one
   * entry per distinct target, in order of first appearance.
   */
  function Snapshot(scene: seq<SceneItem>, targets: seq<nat>): (r: seq<DragData>)
    requires forall k :: 0 <= k < |targets| ==> targets[k] < |scene|
    ensures DistinctElements(r)
    ensures ElementsOf(r) == set t | t in targets
    ensures forall k :: 0 <= k < |r| ==> r[k].element < |scene| && r[k] == Entry(scene, r[k].element)
    ensures |r| <= |targets|
  {
    if targets == [] then []
    else
      var init := targets[..|targets| - 1];
      var e := targets[|targets| - 1];
      assert targets == init + [e];
      var prev := Snapshot(scene, init);
      if e in ElementsOf(prev) then prev
      else
        var r := prev + [Entry(scene, e)];
        assert ElementsOf(r) == ElementsOf(prev) + {e};
        r
  }

  /** The `targets.forEach` that fills the snapshot `Map`: a target already present is set again to the same entry. */
  method TakeSnapshot(scene: seq<SceneItem>, targets: seq<nat>) returns (data: seq<DragData>)
    requires forall k :: 0 <= k < |targets| ==> targets[k] < |scene|
    ensures data == Snapshot(scene, targets)
    ensures Lockstep(data)
  {
    data := [];
    var i := 0;
    while i < |targets|
      invariant 0 <= i <= |targets|
      invariant data == Snapshot(scene, targets[..i])
    {
      var e := targets[i];
      SnapshotStep(scene, targets, i);
      if e !in ElementsOf(data) {
        data := data + [Entry(scene, e)];
      }
      i := i + 1;
    }
    assert targets[..i] == targets;
    SnapshotLockstep(scene, targets);
  }

  /** One more target adds its entry to the snapshot, unless the element is already there. */
  lemma SnapshotStep(scene: seq<SceneItem>, targets: seq<nat>, i: nat)
    requires forall k :: 0 <= k < |targets| ==> targets[k] < |scene|
    requires i < |targets|
    ensures Snapshot(scene, targets[..i + 1])
         == if targets[i] in ElementsOf(Snapshot(scene, targets[..i])) then Snapshot(scene, targets[..i])
            else Snapshot(scene, targets[..i]) + [Entry(scene, targets[i])]
  {
    assert targets[..i + 1][..i] == targets[..i];
  }

  /** All snapshot entries start with the same (zero) translation. */
  lemma SnapshotLockstep(scene: seq<SceneItem>, targets: seq<nat>)
    requires forall k :: 0 <= k < |targets| ==> targets[k] < |scene|
    ensures Lockstep(Snapshot(scene, targets))
  {
  }

  /** One more entry of a snapshot adds its element. */
  lemma ElementsOfPrefix(data: seq<DragData>, i: nat)
    requires i < |data|
    ensures ElementsOf(data[..i + 1]) == ElementsOf(data[..i]) + {data[i].element}
  {
    assert data[..i + 1] == data[..i] + [data[i]];
  }

  /** Giving every entry the same translation keeps the elements, keeps them distinct, and moves all in lockstep. */
  lemma RetranslatedKeepsElements(data: seq<DragData>, moved: seq<DragData>, delta: Point)
    requires |moved| == |data|
    requires forall k :: 0 <= k < |data| ==> moved[k] == data[k].(transform := delta)
    ensures ElementsOf(moved) == ElementsOf(data)
    ensures DistinctElements(data) ==> DistinctElements(moved)
    ensures Lockstep(moved)
  {
    assert forall k :: 0 <= k < |data| ==> moved[k].element == data[k].element;
    forall e | e in ElementsOf(data) ensures e in ElementsOf(moved) {
      var d :| d in data && d.element == e;
      var k :| 0 <= k < |data| && data[k] == d;
      assert moved[k].element == e;
    }
  }

  /** Without repeated targets, the snapshot has one entry per target, in target order. */
  lemma {:induction false} SnapshotFollowsTargets(scene: seq<SceneItem>, targets: seq<nat>)
    requires forall k :: 0 <= k < |targets| ==> targets[k] < |scene|
    requires forall j, k :: 0 <= j < k < |targets| ==> targets[j] != targets[k]
    ensures |Snapshot(scene, targets)| == |targets|
    ensures forall k :: 0 <= k < |targets| ==> Snapshot(scene, targets)[k] == Entry(scene, targets[k])
  {
    if targets != [] {
      var n := |targets| - 1;
      var init := targets[..n];
      assert forall k :: 0 <= k < n ==> init[k] == targets[k];
      SnapshotFollowsTargets(scene, init);
      var prev := Snapshot(scene, init);
      assert targets[n] !in init;
      SnapshotStep(scene, targets, n);
      assert targets[..n + 1] == targets;
      assert Snapshot(scene, targets) == prev + [Entry(scene, targets[n])];
    }
  }

  /** Where element `d.element` lands on release: its snapshot position plus the last delta. */
  function CommittedPosition(d: DragData): Position
  {
    Position(d.initialLeft + d.transform.x, d.initialTop + d.transform.y)
  }

  /** The element after the commit: new `left`/`top`, transform cleared. */
  function Committed(item: SceneItem, d: DragData): SceneItem
  {
    item.(left := Some(CommittedPosition(d).left), top := Some(CommittedPosition(d).top), transform := None)
  }

  /** A committed element keeps its class list, has no transform left, and sits at its snapshot position moved by the preview translation. */
  lemma CommittedMovesByPreview(item: SceneItem, d: DragData)
    ensures Committed(item, d).className == item.className && Committed(item, d).transform.None?
    ensures Committed(item, d).left == Some(d.initialLeft + d.transform.x)
    ensures Committed(item, d).top == Some(d.initialTop + d.transform.y)
  {
  }

  /** The scene after the forEach of the release handler has committed the entries of `data` in order. */
  function CommitAll(scene: seq<SceneItem>, data: seq<DragData>): (r: seq<SceneItem>)
    requires forall k :: 0 <= k < |data| ==> data[k].element < |scene|
    ensures |r| == |scene|
  {
    if data == [] then scene
    else
      var d := data[|data| - 1];
      var prev := CommitAll(scene, data[..|data| - 1]);
      prev[d.element := Committed(prev[d.element], d)]
  }

  /** With distinct elements, each snapshotted element is committed from its own entry and the rest are untouched. */
  lemma {:induction false} CommitAllAt(scene: seq<SceneItem>, data: seq<DragData>)
    requires forall k :: 0 <= k < |data| ==> data[k].element < |scene|
    requires DistinctElements(data)
    ensures forall k :: 0 <= k < |data| ==>
      CommitAll(scene, data)[data[k].element] == Committed(scene[data[k].element], data[k])
    ensures forall e :: 0 <= e < |scene| && e !in ElementsOf(data) ==> CommitAll(scene, data)[e] == scene[e]
  {
    if data != [] {
      var n := |data| - 1;
      var init, d := data[..n], data[n];
      assert forall k :: 0 <= k < n ==> init[k] == data[k];
      CommitAllAt(scene, init);
      var prev := CommitAll(scene, init);
      assert CommitAll(scene, data) == prev[d.element := Committed(prev[d.element], d)];
      assert d.element !in ElementsOf(init);
      ElementsOfPrefix(data, n);
      assert data[..n + 1] == data;
      forall k | 0 <= k < |data|
        ensures CommitAll(scene, data)[data[k].element] == Committed(scene[data[k].element], data[k])
      {
        if k < n {
          assert data[k].element != d.element;
        }
      }
    }
  }

  /** The ids a snapshot holds. */
  function IdsIn(data: seq<DragData>): set<string>
  {
    set d | d in data :: d.id
  }

  /**
   * The `EDIT_OBJECT` payload built by the forEach over the snapshot: one entry
   * per id; when two elements share an id, the later one wins.
   */
  function Payload(data: seq<DragData>): (p: map<string, Position>)
    ensures p.Keys == IdsIn(data)
  {
    if data == [] then map[]
    else
      var init := data[..|data| - 1];
      var last := data[|data| - 1];
      assert data == init + [last];
      assert IdsIn(data) == IdsIn(init) + {last.id};
      Payload(init)[last.id := CommittedPosition(last)]
  }

  /** Each entry's id carries that entry's committed position, unless a later entry has the same id. */
  lemma {:induction false} PayloadEntry(data: seq<DragData>, k: nat)
    requires k < |data|
    requires forall j :: k < j < |data| ==> data[j].id != data[k].id
    ensures data[k].id in Payload(data) && Payload(data)[data[k].id] == CommittedPosition(data[k])
  {
    var init := data[..|data| - 1];
    assert data == init + [data[|data| - 1]];
    assert data[k] in data;
    if k < |data| - 1 {
      assert init[k] == data[k];
      PayloadEntry(init, k);
    }
  }

  /** A release without any move commits each snapshotted element at its snapshot position, `parseFloat(style) || 0`. */
  lemma UnmovedCommitKeepsPositions(scene: seq<SceneItem>, targets: seq<nat>, k: nat)
    requires forall j :: 0 <= j < |targets| ==> targets[j] < |scene|
    requires k < |Snapshot(scene, targets)|
    ensures var e := Snapshot(scene, targets)[k].element;
            CommittedPosition(Snapshot(scene, targets)[k]) == Position(scene[e].left.GetOr(0.0), scene[e].top.GetOr(0.0))
  {
  }

  // ---------------------------------------------------------------------------
  // The interaction state machine
  // ---------------------------------------------------------------------------

  class SceneInteractions {
    /** The scene item elements of the board, in document order. */
    const items: array<SceneItem>
    /** The board zoom the drag deltas are divided by. */
    var zoom: real
    /** The selected elements the drag handlers are attached to. */
    var targets: seq<nat>

    /** Marquee state. */
    var isSelecting: bool
    var startPos: Point
    var selectionBox: Box

    /** Drag state of the current drag effect: the snapshot and the closure locals. */
    var elementsData: seq<DragData>
    var localIsDragging: bool
    var startX: real
    var startY: real

    /** `stateManager.updateState` calls, oldest first. */
    ghost var selections: seq<SelectionUpdate>
    /** `dispatch(EDIT_OBJECT, { payload })` calls, oldest first. */
    ghost var edits: seq<map<string, Position>>

    ghost predicate Valid()
      reads this
    {
      && zoom != 0.0
      && (forall k :: 0 <= k < |targets| ==> targets[k] < items.Length)
      && (forall k :: 0 <= k < |elementsData| ==> elementsData[k].element < items.Length)
      && DistinctElements(elementsData)
      && ElementsOf(elementsData) == (set t | t in targets)
      && Lockstep(elementsData)
    }

    /** Mounting over the board's scene items, with nothing selected. */
    constructor (sceneItems: array<SceneItem>, initialZoom: real)
      requires initialZoom != 0.0
      ensures Valid()
      ensures items == sceneItems && zoom == initialZoom
      ensures targets == [] && elementsData == [] && !localIsDragging && !isSelecting
      ensures selections == [] && edits == []
    {
      items := sceneItems;
      zoom := initialZoom;
      targets := [];
      isSelecting := false;
      startPos := Point(0.0, 0.0);
      selectionBox := Box(0.0, 0.0, 0.0, 0.0);
      elementsData := [];
      localIsDragging := false;
      startX, startY := 0.0, 0.0;
      selections := [];
      edits := [];
    }

    /**
     * The drag effect re-running after `targets` (or `zoom`) changed: a fresh
     * snapshot of the targets' positions and fresh closure locals.
     */
    method Resnapshot()
      requires zoom != 0.0
      requires forall k :: 0 <= k < |targets| ==> targets[k] < items.Length
      modifies this
      ensures Valid()
      ensures elementsData == Snapshot(items[..], targets)
      ensures !localIsDragging && startX == 0.0 && startY == 0.0
      ensures zoom == old(zoom) && targets == old(targets)
      ensures isSelecting == old(isSelecting) && startPos == old(startPos) && selectionBox == old(selectionBox)
      ensures selections == old(selections) && edits == old(edits)
    {
      elementsData := TakeSnapshot(items[..], targets);
      localIsDragging := false;
      startX, startY := 0.0, 0.0;
    }

    /** `updateTargets(time)`: the visible, resolvable selected elements become the targets. */
    method UpdateTargets(time: Option<real>, playerTime: real, activeIds: seq<string>,
                         trackItems: map<string, TrackItem>, lookup: map<string, nat>)
      requires Valid()
      requires forall id :: id in lookup ==> lookup[id] < items.Length
      modifies this
      ensures Valid()
      ensures targets == TargetsAt(activeIds, trackItems, lookup, time, playerTime)
      ensures elementsData == Snapshot(items[..], targets)
      ensures !localIsDragging && zoom == old(zoom)
      ensures isSelecting == old(isSelecting) && startPos == old(startPos) && selectionBox == old(selectionBox)
      ensures selections == old(selections) && edits == old(edits)
    {
      TargetsAtBounded(activeIds, trackItems, lookup, time, playerTime, items.Length);
      targets := TargetsAt(activeIds, trackItems, lookup, time, playerTime);
      Resnapshot();
    }

    /** The deferred `updateTargets()` after mount or a store change: the player's time is used. */
    method Refresh(playerTime: real, activeIds: seq<string>, trackItems: map<string, TrackItem>,
                   lookup: map<string, nat>)
      requires Valid()
      requires forall id :: id in lookup ==> lookup[id] < items.Length
      modifies this
      ensures Valid()
      ensures targets == TargetsAt(activeIds, trackItems, lookup, None, playerTime)
      ensures elementsData == Snapshot(items[..], targets)
      ensures !localIsDragging && zoom == old(zoom)
      ensures isSelecting == old(isSelecting) && startPos == old(startPos) && selectionBox == old(selectionBox)
      ensures selections == old(selections) && edits == old(edits)
    {
      UpdateTargets(None, playerTime, activeIds, trackItems, lookup);
    }

    /** The player's `seeked` event at `frame`: targets are recomputed at the seek time. */
    method Seeked(frame: int, fps: real, playerTime: real, activeIds: seq<string>,
                  trackItems: map<string, TrackItem>, lookup: map<string, nat>)
      requires Valid()
      requires fps > 0.0
      requires forall id :: id in lookup ==> lookup[id] < items.Length
      modifies this
      ensures Valid()
      ensures targets == TargetsAt(activeIds, trackItems, lookup, Some(SeekTime(frame, fps)), playerTime)
      ensures elementsData == Snapshot(items[..], targets)
      ensures !localIsDragging && zoom == old(zoom)
      ensures isSelecting == old(isSelecting) && startPos == old(startPos) && selectionBox == old(selectionBox)
      ensures selections == old(selections) && edits == old(edits)
    {
      UpdateTargets(Some(SeekTime(frame, fps)), playerTime, activeIds, trackItems, lookup);
    }

    /** A new `zoom` prop: the drag effect re-runs with it. */
    method ZoomChanged(newZoom: real)
      requires Valid()
      requires newZoom != 0.0
      modifies this
      ensures Valid()
      ensures zoom == newZoom && targets == old(targets)
      ensures elementsData == Snapshot(items[..], targets) && !localIsDragging
      ensures isSelecting == old(isSelecting) && startPos == old(startPos) && selectionBox == old(selectionBox)
      ensures selections == old(selections) && edits == old(edits)
    {
      zoom := newZoom;
      Resnapshot();
    }

    /**
     * `pointerdown` at `p`; `onItem` is the closest scene item of the event
     * target, if any. The drag handler on a target element runs first and stops
     * propagation when it starts a drag; otherwise the board's handler selects
     * the item, or starts a marquee on empty space.
     */
    method PointerDown(onItem: Option<nat>, p: Point)
      requires Valid()
      requires onItem.Some? ==> onItem.value < items.Length
      modifies this
      ensures Valid()
      ensures zoom == old(zoom) && edits == old(edits)
      // a press on a snapshotted element starts a drag and nothing else
      ensures onItem.Some? && onItem.value in ElementsOf(old(elementsData)) ==>
        && localIsDragging && startX == p.x && startY == p.y
        && elementsData == old(elementsData) && targets == old(targets) && selections == old(selections)
        && isSelecting == old(isSelecting) && startPos == old(startPos) && selectionBox == old(selectionBox)
      // a press on another scene item selects exactly that item, without history
      ensures onItem.Some? && onItem.value !in ElementsOf(old(elementsData)) ==>
        && selections == old(selections)
           + [SelectionUpdate([SceneIds.GetIdFromClassName(items[onItem.value].className)], false, SelectionKind)]
        && targets == [onItem.value]
        && elementsData == Snapshot(items[..], targets) && !localIsDragging
        && isSelecting == old(isSelecting) && startPos == old(startPos) && selectionBox == old(selectionBox)
      // a press on empty space starts a marquee with an empty box at the pointer
      ensures onItem.None? ==>
        && isSelecting && startPos == p && selectionBox == Box(p.x, p.y, 0.0, 0.0)
        && targets == old(targets) && elementsData == old(elementsData) && selections == old(selections)
        && localIsDragging == old(localIsDragging) && startX == old(startX) && startY == old(startY)
    {
      match onItem
      case Some(e) =>
        if e in ElementsOf(elementsData) {
          localIsDragging := true;
          startX, startY := p.x, p.y;
        } else {
          var id := SceneIds.GetIdFromClassName(items[e].className);
          selections := selections + [SelectionUpdate([id], false, SelectionKind)];
          targets := [e];
          Resnapshot();
        }
      case None =>
        isSelecting := true;
        startPos := p;
        selectionBox := Box(p.x, p.y, 0.0, 0.0);
    }

    /**
     * `pointermove` at `p`: the marquee box follows the pointer while selecting;
     * while dragging, every snapshotted element gets the same translation
     * `(p - start) / zoom`.
     */
    method PointerMove(p: Point)
      requires Valid()
      modifies this, items
      ensures Valid()
      ensures zoom == old(zoom) && targets == old(targets) && isSelecting == old(isSelecting)
      ensures startPos == old(startPos) && localIsDragging == old(localIsDragging)
      ensures startX == old(startX) && startY == old(startY)
      ensures selections == old(selections) && edits == old(edits)
      ensures selectionBox == if isSelecting then SpanBox(startPos, p) else old(selectionBox)
      ensures |elementsData| == |old(elementsData)|
      ensures forall k :: 0 <= k < |elementsData| ==> elementsData[k].element == old(elementsData[k].element)
      ensures !localIsDragging ==> elementsData == old(elementsData)
      ensures localIsDragging ==> forall k :: 0 <= k < |elementsData| ==>
        elementsData[k] == old(elementsData[k]).(transform := Point((p.x - startX) / zoom, (p.y - startY) / zoom))
      ensures forall e :: 0 <= e < items.Length ==>
        items[e] == if localIsDragging && e in ElementsOf(old(elementsData))
                    then old(items[e]).(transform := Some(Point((p.x - startX) / zoom, (p.y - startY) / zoom)))
                    else old(items[e])
    {
      if isSelecting {
        selectionBox := SpanBox(startPos, p);
      }
      if localIsDragging {
        var delta := Point((p.x - startX) / zoom, (p.y - startY) / zoom);
        ApplyPreview(delta);
      }
    }

    /** The animation-frame callback: every snapshotted element is translated by `delta`. */
    method ApplyPreview(delta: Point)
      requires Valid()
      modifies this`elementsData, items
      ensures Valid()
      ensures |elementsData| == |old(elementsData)|
      ensures forall k :: 0 <= k < |elementsData| ==> elementsData[k] == old(elementsData[k]).(transform := delta)
      ensures forall e :: 0 <= e < items.Length ==>
        items[e] == if e in ElementsOf(old(elementsData)) then old(items[e]).(transform := Some(delta)) else old(items[e])
    {
      var data := elementsData;
      var i := 0;
      while i < |data|
        invariant 0 <= i <= |data|
        invariant |elementsData| == |data|
        invariant forall k :: 0 <= k < |data| ==>
          elementsData[k] == if k < i then data[k].(transform := delta) else data[k]
        invariant forall e :: 0 <= e < items.Length ==>
          items[e] == if e in ElementsOf(data[..i]) then old(items[e]).(transform := Some(delta)) else old(items[e])
      {
        var e := data[i].element;
        ElementsOfPrefix(data, i);
        items[e] := items[e].(transform := Some(delta));
        elementsData := elementsData[i := elementsData[i].(transform := delta)];
        i := i + 1;
      }
      assert data[..i] == data;
      RetranslatedKeepsElements(data, elementsData, delta);
    }

    /**
     * The drag's `pointerup` handler: each snapshotted element is moved to its
     * snapshot position plus the last delta, its transform is cleared, and one
     * `EDIT_OBJECT` carrying all the new positions is dispatched.
     */
    method EndDrag()
      requires Valid()
      modifies this`localIsDragging, this`edits, items
      ensures Valid()
      ensures !localIsDragging
      ensures old(localIsDragging) ==> edits == old(edits) + [Payload(elementsData)]
      ensures old(localIsDragging) ==> forall k :: 0 <= k < |elementsData| ==>
        items[elementsData[k].element] == Committed(old(items[elementsData[k].element]), elementsData[k])
      ensures old(localIsDragging) ==> forall e :: 0 <= e < items.Length && e !in ElementsOf(elementsData) ==>
        items[e] == old(items[e])
      ensures !old(localIsDragging) ==> edits == old(edits) && items[..] == old(items[..])
    {
      if !localIsDragging {
        return;
      }
      localIsDragging := false;
      var payload: map<string, Position> := map[];
      var i := 0;
      while i < |elementsData|
        invariant 0 <= i <= |elementsData|
        invariant !localIsDragging && edits == old(edits)
        invariant payload == Payload(elementsData[..i])
        invariant items[..] == CommitAll(old(items[..]), elementsData[..i])
      {
        var d := elementsData[i];
        assert elementsData[..i + 1][..i] == elementsData[..i];
        items[d.element] := Committed(items[d.element], d);
        payload := payload[d.id := CommittedPosition(d)];
        i := i + 1;
      }
      assert elementsData[..i] == elementsData;
      CommitAllAt(old(items[..]), elementsData);
      edits := edits + [payload];
    }

    /**
     * The marquee's `pointerup` handler: a box larger than the threshold on both
     * sides selects the items it overlaps; one smaller on both sides clears the
     * selection; any other box changes nothing but ends the marquee.
     */
    method EndMarquee(rects: seq<Rect>)
      requires Valid()
      requires |rects| == items.Length
      modifies this
      ensures Valid()
      ensures !isSelecting
      ensures zoom == old(zoom) && startPos == old(startPos) && selectionBox == old(selectionBox)
      ensures edits == old(edits)
      ensures old(isSelecting) && selectionBox.width > Threshold && selectionBox.height > Threshold ==>
        && targets == Hits(rects, selectionBox, |rects|)
        && selections == old(selections) + [SelectionUpdate(IdsOf(items[..], targets), false, SelectionKind)]
        && elementsData == Snapshot(items[..], targets) && !localIsDragging
      ensures old(isSelecting) && selectionBox.width < Threshold && selectionBox.height < Threshold ==>
        && targets == [] && selections == old(selections) + [SelectionUpdate([], false, SelectionKind)]
        && elementsData == [] && !localIsDragging
      ensures !old(isSelecting) || !((selectionBox.width > Threshold && selectionBox.height > Threshold)
                                     || (selectionBox.width < Threshold && selectionBox.height < Threshold)) ==>
        && targets == old(targets) && selections == old(selections)
        && elementsData == old(elementsData) && localIsDragging == old(localIsDragging)
        && startX == old(startX) && startY == old(startY)
    {
      if !isSelecting {
        return;
      }
      isSelecting := false;
      if selectionBox.width > Threshold && selectionBox.height > Threshold {
        var hits := HitTest(rects, selectionBox);
        selections := selections + [SelectionUpdate(IdsOf(items[..], hits), false, SelectionKind)];
        targets := hits;
        Resnapshot();
      } else if selectionBox.width < Threshold && selectionBox.height < Threshold {
        selections := selections + [SelectionUpdate([], false, SelectionKind)];
        targets := [];
        Resnapshot();
      }
    }

    /**
     * `pointerup`: both document handlers run; a drag in progress is committed,
     * then a marquee in progress is resolved against the live rectangles `rects`.
     */
    method PointerUp(rects: seq<Rect>)
      requires Valid()
      requires |rects| == items.Length
      modifies this, items
      ensures Valid()
      ensures !isSelecting && !localIsDragging
      ensures zoom == old(zoom) && startPos == old(startPos) && selectionBox == old(selectionBox)
      ensures old(localIsDragging) ==> edits == old(edits) + [Payload(old(elementsData))]
      ensures !old(localIsDragging) ==> edits == old(edits)
      ensures old(localIsDragging) ==> forall k :: 0 <= k < |old(elementsData)| ==>
        items[old(elementsData)[k].element] == Committed(old(items[elementsData[k].element]), old(elementsData)[k])
      ensures forall e :: 0 <= e < items.Length && !(old(localIsDragging) && e in ElementsOf(old(elementsData))) ==>
        items[e] == old(items[e])
      ensures old(isSelecting) && selectionBox.width > Threshold && selectionBox.height > Threshold ==>
        && targets == Hits(rects, selectionBox, |rects|)
        && selections == old(selections) + [SelectionUpdate(IdsOf(items[..], targets), false, SelectionKind)]
        && elementsData == Snapshot(items[..], targets)
      ensures old(isSelecting) && selectionBox.width < Threshold && selectionBox.height < Threshold ==>
        && targets == [] && selections == old(selections) + [SelectionUpdate([], false, SelectionKind)]
        && elementsData == []
      ensures !old(isSelecting) || !((selectionBox.width > Threshold && selectionBox.height > Threshold)
                                     || (selectionBox.width < Threshold && selectionBox.height < Threshold)) ==>
        && targets == old(targets) && selections == old(selections) && elementsData == old(elementsData)
    {
      EndDrag();
      EndMarquee(rects);
    }

    /** `pointercancel` is bound to the same handlers as `pointerup`: a cancelled drag also commits. */
    method PointerCancel(rects: seq<Rect>)
      requires Valid()
      requires |rects| == items.Length
      modifies this, items
      ensures Valid()
      ensures !isSelecting && !localIsDragging
      ensures zoom == old(zoom) && startPos == old(startPos) && selectionBox == old(selectionBox)
      ensures old(localIsDragging) ==> edits == old(edits) + [Payload(old(elementsData))]
      ensures !old(localIsDragging) ==> edits == old(edits)
      ensures old(localIsDragging) ==> forall k :: 0 <= k < |old(elementsData)| ==>
        items[old(elementsData)[k].element] == Committed(old(items[elementsData[k].element]), old(elementsData)[k])
      ensures forall e :: 0 <= e < items.Length && !(old(localIsDragging) && e in ElementsOf(old(elementsData))) ==>
        items[e] == old(items[e])
      ensures old(isSelecting) && selectionBox.width > Threshold && selectionBox.height > Threshold ==>
        && targets == Hits(rects, selectionBox, |rects|)
        && selections == old(selections) + [SelectionUpdate(IdsOf(items[..], targets), false, SelectionKind)]
        && elementsData == Snapshot(items[..], targets)
      ensures old(isSelecting) && selectionBox.width < Threshold && selectionBox.height < Threshold ==>
        && targets == [] && selections == old(selections) + [SelectionUpdate([], false, SelectionKind)]
        && elementsData == []
      ensures !old(isSelecting) || !((selectionBox.width > Threshold && selectionBox.height > Threshold)
                                     || (selectionBox.width < Threshold && selectionBox.height < Threshold)) ==>
        && targets == old(targets) && selections == old(selections) && elementsData == old(elementsData)
    {
      PointerUp(rects);
    }
  }
}
