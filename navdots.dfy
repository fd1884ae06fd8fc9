/**
 The navigation dots and the section counter. When a section comes into view,
 the dot at its position becomes the only active one, and the counter shows the
 section's name if it has one.
 */
module NavDots {
  import opened Wrappers
  import opened Observation

  /** A `data-name` that is present and not empty. */
  predicate Named(name: Option<string>)
  {
    name.Some? && name.value != ""
  }

  /** At most one dot carries the `active` class. */
  predicate AtMostOneActive(dots: seq<bool>)
  {
    forall i, j :: 0 <= i < |dots| && 0 <= j < |dots| && dots[i] && dots[j] ==> i == j
  }

  /** The name of the section of the last intersecting entry whose section is named. */
  function LastName(entries: seq<Entry>, names: seq<Option<string>>): (r: Option<string>)
    requires TargetsBelow(entries, |names|)
    ensures r.None? <==>
              forall k :: 0 <= k < |entries| && entries[k].isIntersecting ==> !Named(names[entries[k].target])
    ensures r.Some? ==>
              exists k :: 0 <= k < |entries| && entries[k].isIntersecting && Named(names[entries[k].target])
                          && r == names[entries[k].target]
                          && forall j :: k < j < |entries| && entries[j].isIntersecting ==>
                                           !Named(names[entries[j].target])
  {
    if |entries| == 0 then None
    else
      var last := entries[|entries| - 1];
      if last.isIntersecting && Named(names[last.target]) then names[last.target]
      else LastName(entries[..|entries| - 1], names)
  }

  class NavIndicator {
    /** Whether each `.nav-dot` carries the `active` class, in document order. */
    const dots: array<bool>
    /** The `data-name` of each `.snap-section`, in document order. */
    const names: seq<Option<string>>
    /** Whether the page has a `#sectionCounter` element. */
    const hasCounter: bool
    /** The counter's text. */
    var counterText: string

    constructor (initialDots: seq<bool>, sectionNames: seq<Option<string>>, counter: bool, text: string)
      ensures fresh(dots) && dots[..] == initialDots
      ensures names == sectionNames && hasCounter == counter && counterText == text
    {
      dots := new bool[|initialDots|](i requires 0 <= i < |initialDots| => initialDots[i]);
      names, hasCounter, counterText := sectionNames, counter, text;
    }

    /** One intersecting entry for the section at position `k`. */
    method ShowSection(k: nat)
      requires k < |names|
      modifies this, dots
      ensures forall i :: 0 <= i < dots.Length ==> dots[i] == (i == k)
      ensures AtMostOneActive(dots[..])
      ensures counterText == if hasCounter && Named(names[k]) then names[k].value else old(counterText)
    {
      var index := 0;
      while index < dots.Length
        invariant 0 <= index <= dots.Length
        invariant forall i :: 0 <= i < index ==> dots[i] == (i == k)
        invariant counterText == old(counterText)
      {
        dots[index] := index == k;
        index := index + 1;
      }
      if hasCounter && Named(names[k]) {
        counterText := names[k].value;
      }
    }

    /** The callback of the observer that tracks sections a fifth in view. */
    method OnEntries(entries: seq<Entry>)
      requires TargetsBelow(entries, |names|)
      modifies this, dots
      ensures match LastIntersecting(entries)
              case None => dots[..] == old(dots[..])
              case Some(k) => (forall i :: 0 <= i < dots.Length ==> dots[i] == (i == k)) && AtMostOneActive(dots[..])
      ensures counterText == if hasCounter && LastName(entries, names).Some? then LastName(entries, names).value
                             else old(counterText)
    {
      var i := 0;
      while i < |entries|
        invariant 0 <= i <= |entries|
        invariant match LastIntersecting(entries[..i])
                  case None => dots[..] == old(dots[..])
                  case Some(k) => forall j :: 0 <= j < dots.Length ==> dots[j] == (j == k)
        invariant counterText == if hasCounter && LastName(entries[..i], names).Some?
                                 then LastName(entries[..i], names).value else old(counterText)
      {
        assert entries[..i + 1][..i] == entries[..i];
        if entries[i].isIntersecting {
          ShowSection(entries[i].target);
        }
        i := i + 1;
      }
      assert entries[..i] == entries;
    }
  }
}
