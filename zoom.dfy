/**
 * Board zoom (`useZoom`): the zoom that fits the design into its container,
 * and the bounded step applied on each ctrl/cmd wheel event. The ref read by
 * the wheel handler and the rendered zoom state are kept equal.
 */
module Zoom {
  import opened Wrappers

  /** Padding, in pixels, kept free inside the container. */
  const Padding: real := 96.0
  /** The zoom change of one wheel event. */
  const Step: real := 0.0085
  /** The range a wheel step may move the zoom into. */
  const MinZoom: real := 0.001
  const MaxZoom: real := 10.0
  /** The zoom before the first fit. */
  const InitialZoom: real := 0.01

  /** The inner size of the board's container element. */
  datatype Container = Container(clientWidth: real, clientHeight: real)

  /** `Math.min` of the two axis ratios; not clamped to any range. */
  function FitZoom(c: Container, width: real, height: real): (z: real)
    requires width != 0.0 && height != 0.0
    ensures z <= (c.clientWidth - Padding) / width && z <= (c.clientHeight - Padding) / height
    ensures z == (c.clientWidth - Padding) / width || z == (c.clientHeight - Padding) / height
  {
    var zw := (c.clientWidth - Padding) / width;
    var zh := (c.clientHeight - Padding) / height;
    if zw <= zh then zw else zh
  }

  /** At the fit zoom a design of positive size fits inside the padded container on both axes. */
  lemma FitZoomFits(c: Container, width: real, height: real)
    requires width > 0.0 && height > 0.0
    ensures width * FitZoom(c, width, height) <= c.clientWidth - Padding
    ensures height * FitZoom(c, width, height) <= c.clientHeight - Padding
  {
  }

  /** The zoom after one wheel event with vertical delta `deltaY`, from zoom `z`. */
  function NextZoom(z: real, deltaY: real): (r: real)
    ensures r == z || (MinZoom <= r <= MaxZoom && (r == z + Step || r == z - Step))
    ensures deltaY > 0.0 ==> r >= z
    ensures deltaY <= 0.0 ==> r <= z
    ensures r != z <==> MinZoom <= (if deltaY > 0.0 then z + Step else z - Step) <= MaxZoom
  {
    var changer := if deltaY > 0.0 then Step else -Step;
    var proposal := z + changer;
    if MinZoom <= proposal && proposal <= MaxZoom then proposal else z
  }

  /** The zoom after a sequence of wheel events. */
  function ZoomAfter(z: real, deltas: seq<real>): real
    decreases |deltas|
  {
    if deltas == [] then z else ZoomAfter(NextZoom(z, deltas[0]), deltas[1..])
  }

  /** Once inside `[MinZoom, MaxZoom]`, no sequence of wheel events leaves it. */
  lemma {:induction false} WheelKeepsRange(z: real, deltas: seq<real>)
    requires MinZoom <= z <= MaxZoom
    ensures MinZoom <= ZoomAfter(z, deltas) <= MaxZoom
    decreases |deltas|
  {
    if deltas != [] {
      WheelKeepsRange(NextZoom(z, deltas[0]), deltas[1..]);
    }
  }

  /** A zoom more than one step outside the range (an unclamped fit) can never be changed by the wheel. */
  lemma {:induction false} WheelCannotLeaveFarOutside(z: real, deltas: seq<real>)
    requires z > MaxZoom + Step || z < MinZoom - Step
    ensures ZoomAfter(z, deltas) == z
    decreases |deltas|
  {
    if deltas != [] {
      assert NextZoom(z, deltas[0]) == z;
      WheelCannotLeaveFarOutside(z, deltas[1..]);
    }
  }

  /** The hook's state: the rendered `zoom` and the `currentZoomRef` read by the wheel handler. */
  class ZoomState {
    var zoom: real
    var currentZoomRef: real

    ghost predicate Valid()
      reads this
    {
      zoom == currentZoomRef
    }

    constructor ()
      ensures Valid() && zoom == InitialZoom
    {
      zoom := InitialZoom;
      currentZoomRef := InitialZoom;
    }

    /** The fit effect, run when the design size changes; nothing happens without a container. */
    method FitToContainer(container: Option<Container>, width: real, height: real)
      requires Valid()
      requires width != 0.0 && height != 0.0
      modifies this
      ensures Valid()
      ensures container.Some? ==> zoom == FitZoom(container.value, width, height)
      ensures container.None? ==> zoom == old(zoom)
    {
      if container.None? {
        return;
      }
      var desiredZoom := FitZoom(container.value, width, height);
      currentZoomRef := desiredZoom;
      zoom := desiredZoom;
    }

    /** `handleZoomChange(deltaY)`: a step of 0.0085, kept only if it lands in `[0.001, 10]`. */
    method HandleZoomChange(deltaY: real)
      requires Valid()
      modifies this
      ensures Valid()
      ensures zoom == NextZoom(old(zoom), deltaY)
      ensures zoom != old(zoom) ==> MinZoom <= zoom <= MaxZoom
    {
      var changer := if deltaY > 0.0 then Step else -Step;
      var currentZoom := currentZoomRef;
      var newZoom := currentZoom + changer;
      if newZoom >= MinZoom && newZoom <= MaxZoom {
        currentZoomRef := newZoom;
        zoom := newZoom;
      }
    }
  }
}
