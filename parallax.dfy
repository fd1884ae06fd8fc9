/**
 The parallax handler. A scroll asks for an animation frame only when none is
 outstanding; the frame shifts every parallax image by 30% of its distance from
 the top of the viewport and then lets the next scroll ask again. So at most one
 frame callback is ever pending.
 */
module Parallax {

  const Speed: real := 0.3

  /** The `ticking` flag and the number of frame callbacks held by the browser. */
  datatype FrameState = FrameState(ticking: bool, pending: nat)

  datatype FrameEvent = Scroll | RunFrame

  /** The coalescing invariant: at most one callback pending, and `ticking` says
      exactly whether there is one. */
  predicate Coalesced(s: FrameState)
  {
    s.pending <= 1 && (s.ticking <==> s.pending == 1)
  }

  const Initial: FrameState := FrameState(false, 0)

  /** A scroll schedules a frame unless one is outstanding; a frame runs one pending
      callback, which clears the flag. The browser runs no frame it does not hold. */
  function Step(s: FrameState, e: FrameEvent): (r: FrameState)
    ensures Coalesced(s) ==> Coalesced(r)
    ensures e.Scroll? ==> (r.pending == s.pending + 1 <==> !s.ticking) && (s.ticking ==> r == s)
    ensures e.Scroll? ==> r.ticking
    ensures e.RunFrame? ==> !r.ticking || r == s
    ensures e.RunFrame? && s.pending > 0 ==> r.pending == s.pending - 1
  {
    match e
    case Scroll => if !s.ticking then FrameState(true, s.pending + 1) else s
    case RunFrame => if s.pending > 0 then FrameState(false, s.pending - 1) else s
  }

  function Run(s: FrameState, events: seq<FrameEvent>): FrameState
    decreases |events|
  {
    if events == [] then s else Run(Step(s, events[0]), events[1..])
  }

  /** However scroll events and frames interleave after page load, at most one frame
      callback is pending and `ticking` is set exactly while it is. */
  lemma {:induction false} AlwaysCoalesced(s: FrameState, events: seq<FrameEvent>)
    requires Coalesced(s)
    ensures Coalesced(Run(s, events))
    decreases |events|
  {
    if events != [] {
      AlwaysCoalesced(Step(s, events[0]), events[1..]);
    }
  }

  function Scrolls(n: nat): seq<FrameEvent>
  {
    seq(n, _ => Scroll)
  }

  /** While a frame is outstanding, any number of further scroll events schedules nothing. */
  lemma {:induction false} ScrollsWhileTicking(s: FrameState, n: nat)
    requires s.ticking
    ensures Run(s, Scrolls(n)) == s
  {
    if n > 0 {
      assert Scrolls(n)[1..] == Scrolls(n - 1);
      ScrollsWhileTicking(s, n - 1);
    }
  }

  /** A burst of scroll events from an idle state leaves exactly one frame pending,
      and running it returns to idle. */
  lemma BurstThenFrame(n: nat)
    requires n > 0
    ensures Run(Initial, Scrolls(n)) == FrameState(true, 1)
    ensures Step(Run(Initial, Scrolls(n)), RunFrame) == Initial
  {
    assert Scrolls(n)[1..] == Scrolls(n - 1);
    ScrollsWhileTicking(FrameState(true, 1), n - 1);
  }

  class ParallaxGuard {
    var ticking: bool
    /** Frame callbacks requested and not yet run. */
    var pendingFrames: nat
    /** The `--parallax-offset` of each parallax image, as last written. */
    var offsets: seq<real>

    function State(): FrameState
      reads this
    {
      FrameState(ticking, pendingFrames)
    }

    ghost predicate Valid()
      reads this
    {
      Coalesced(State())
    }

    constructor ()
      ensures Valid() && State() == Initial && offsets == []
    {
      ticking, pendingFrames, offsets := false, 0, [];
    }

    /** The scroll handler. */
    method OnScroll()
      requires Valid()
      modifies this
      ensures Valid()
      ensures State() == Step(old(State()), Scroll) && offsets == old(offsets)
    {
      if !ticking {
        pendingFrames := pendingFrames + 1;
        ticking := true;
      }
    }

    /** The frame callback, given the top of each parallax image in document order. */
    method OnFrame(imageTops: seq<real>)
      requires Valid() && pendingFrames > 0
      modifies this
      ensures Valid()
      ensures State() == Step(old(State()), RunFrame)
      ensures |offsets| == |imageTops|
      ensures forall i :: 0 <= i < |imageTops| ==> offsets[i] == imageTops[i] * Speed
    {
      pendingFrames := pendingFrames - 1;
      var written: seq<real> := [];
      var index := 0;
      while index < |imageTops|
        invariant 0 <= index <= |imageTops|
        invariant |written| == index
        invariant forall i :: 0 <= i < index ==> written[i] == imageTops[i] * Speed
      {
        written := written + [imageTops[index] * Speed];
        index := index + 1;
      }
      offsets := written;
      ticking := false;
    }
  }
}
