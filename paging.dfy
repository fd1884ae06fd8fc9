/**
 Keyboard paging between the page's full-screen sections. One index, the current
 section, is moved a step at a time by the arrow and page keys and is set directly
 whenever a section becomes at least half visible.
 */
module SectionPaging {
  import opened Wrappers
  import opened Observation

  /** A section index of a page with `n` sections: never negative, and below `n`
      whenever there is a section at all. */
  predicate InRange(current: int, n: nat)
  {
    0 <= current && (n > 0 ==> current < n)
  }

  predicate IsForwardKey(key: string)
  {
    key == "ArrowDown" || key == "PageDown"
  }

  predicate IsBackwardKey(key: string)
  {
    key == "ArrowUp" || key == "PageUp"
  }

  /** The current section after a key press on a page with `n` sections. */
  function NextSection(current: int, n: nat, key: string): (r: int)
    requires InRange(current, n)
    ensures InRange(r, n)
    ensures r == current + 1 <==> IsForwardKey(key) && current < n - 1
    ensures r == current - 1 <==> IsBackwardKey(key) && current > 0
    ensures r == current || r == current + 1 || r == current - 1
  {
    if IsForwardKey(key) then
      if current < n - 1 then current + 1 else current
    else if IsBackwardKey(key) then
      if current > 0 then current - 1 else current
    else
      current
  }

  /** The current section after a batch of at-least-half-visible entries: the last
      intersecting section, or the old index when none intersects. */
  function AfterVisible(current: int, entries: seq<Entry>): (r: int)
    ensures (forall k :: 0 <= k < |entries| ==> !entries[k].isIntersecting) ==> r == current
    ensures (exists k :: 0 <= k < |entries| && entries[k].isIntersecting) ==>
              exists k :: 0 <= k < |entries| && entries[k].isIntersecting && r == entries[k].target
                          && forall j :: k < j < |entries| ==> !entries[j].isIntersecting
  {
    match LastIntersecting(entries)
    case None => current
    case Some(k) => k
  }

  /** What can change the current section. */
  datatype PagingEvent = KeyDown(key: string) | Visible(entries: seq<Entry>)

  predicate WellFormed(e: PagingEvent, n: nat)
  {
    e.Visible? ==> TargetsBelow(e.entries, n)
  }

  function Step(current: int, n: nat, e: PagingEvent): (r: int)
    requires InRange(current, n) && WellFormed(e, n)
    ensures InRange(r, n)
  {
    match e
    case KeyDown(key) => NextSection(current, n, key)
    case Visible(entries) => AfterVisible(current, entries)
  }

  /** The current section after a run of events, first to last. */
  function Run(current: int, n: nat, events: seq<PagingEvent>): int
    requires InRange(current, n)
    requires forall i :: 0 <= i < |events| ==> WellFormed(events[i], n)
    decreases |events|
  {
    if events == [] then current else Run(Step(current, n, events[0]), n, events[1..])
  }

  /** Whatever keys are pressed and whatever sections scroll into view, the current
      section stays a valid index. */
  lemma {:induction false} RunStaysInRange(current: int, n: nat, events: seq<PagingEvent>)
    requires InRange(current, n)
    requires forall i :: 0 <= i < |events| ==> WellFormed(events[i], n)
    ensures InRange(Run(current, n, events), n)
    decreases |events|
  {
    if events != [] {
      assert forall i :: 0 <= i < |events| - 1 ==> events[1..][i] == events[i + 1];
      RunStaysInRange(Step(current, n, events[0]), n, events[1..]);
    }
  }

  class SectionPager {
    /** Number of `.snap-section` elements on the page. */
    const sectionCount: nat
    var current: int

    ghost predicate Valid()
      reads this
    {
      InRange(current, sectionCount)
    }

    constructor (n: nat)
      ensures Valid() && sectionCount == n && current == 0
    {
      sectionCount := n;
      current := 0;
    }

    /** The keydown handler. It reports whether the key's default action is suppressed
        and which section, if any, is asked to scroll into view. */
    method OnKeyDown(key: string) returns (prevented: bool, scrollTo: Option<nat>)
      requires Valid()
      modifies this
      ensures Valid()
      ensures current == NextSection(old(current), sectionCount, key)
      ensures prevented <==> IsForwardKey(key) || IsBackwardKey(key)
      ensures scrollTo == if current != old(current) then Some(current as nat) else None
    {
      prevented, scrollTo := false, None;
      if IsForwardKey(key) {
        prevented := true;
        if current < sectionCount - 1 {
          current := current + 1;
          scrollTo := Some(current as nat);
        }
      } else if IsBackwardKey(key) {
        prevented := true;
        if current > 0 {
          current := current - 1;
          scrollTo := Some(current as nat);
        }
      }
    }

    /** The callback of the observer that tracks the section at least half in view. */
    method OnVisible(entries: seq<Entry>)
      requires Valid() && TargetsBelow(entries, sectionCount)
      modifies this
      ensures Valid()
      ensures current == AfterVisible(old(current), entries)
    {
      var i := 0;
      while i < |entries|
        invariant 0 <= i <= |entries|
        invariant current == AfterVisible(old(current), entries[..i])
        invariant Valid()
      {
        assert entries[..i + 1][..i] == entries[..i];
        if entries[i].isIntersecting {
          current := entries[i].target;
        }
        i := i + 1;
      }
      assert entries[..i] == entries;
    }
  }
}
