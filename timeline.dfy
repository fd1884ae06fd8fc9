/**
 The timeline widget as the scroll handler sees it: the gradient stops it has
 written on the timeline container and the look of every `.timeline-marker`.
 Items and markers are paired by position; an item without a marker is skipped.
 */
module Timeline {
  import opened Wrappers
  import opened TimelineGlow

  class TimelineView {
    /** The `--glow-*` custom properties of the timeline container, `None` until first set. */
    var stops: Option<GradientStops>
    /** The look of each marker, in document order. */
    const markers: array<MarkerLook>

    constructor (initial: seq<MarkerLook>)
      ensures stops == None
      ensures fresh(markers) && markers[..] == initial
    {
      stops := None;
      markers := new MarkerLook[|initial|](i requires 0 <= i < |initial| => initial[i]);
    }

    /** One run of the glow update, from the viewport height, the timeline's top and
        height, and the top of each `.timeline-item` in document order. Without an
        experience section nothing is written. */
    method UpdateTimelineGlow(experiencePresent: bool, viewportHeight: real,
                              timelineTop: real, timelineHeight: real, itemTops: seq<real>)
      requires experiencePresent ==> timelineHeight > 0.0 && viewportHeight > 0.0
      modifies this, markers
      ensures !experiencePresent ==> stops == old(stops) && markers[..] == old(markers[..])
      ensures experiencePresent ==> stops == Some(TimelineStops(viewportHeight, timelineTop, timelineHeight))
      ensures experiencePresent ==>
                forall i :: 0 <= i < markers.Length ==>
                  markers[i] == if i < |itemTops| then Look(itemTops[i], viewportHeight) else old(markers[i])
    {
      if !experiencePresent {
        return;
      }
      stops := Some(TimelineStops(viewportHeight, timelineTop, timelineHeight));
      var index := 0;
      while index < |itemTops|
        invariant 0 <= index <= |itemTops|
        invariant stops == Some(TimelineStops(viewportHeight, timelineTop, timelineHeight))
        invariant forall i :: 0 <= i < markers.Length ==>
                    markers[i] == if i < index then Look(itemTops[i], viewportHeight) else old(markers[i])
      {
        if index < markers.Length {
          markers[index] := Look(itemTops[index], viewportHeight);
        }
        index := index + 1;
      }
    }
  }
}
