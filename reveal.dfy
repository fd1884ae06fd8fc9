/**
 Reveal-on-scroll. Elements get the `revealed` class when they come into view,
 the children of the contact section get it one after another on timers spaced
 100 ms apart, and the hero section's elements get it on a timer 200 ms after
 load. Nothing ever takes the class away.
 */
module Reveal {
  import opened Observation

  /** An element of the page, by identity. */
  type ElementId = nat

  /** Spacing of the contact section's staggered reveals, in milliseconds. */
  const StaggerStep: nat := 100
  /** Delay of the hero section's reveal after load, in milliseconds. */
  const HeroDelay: nat := 200

  /** A pending timer: one that reveals a single element, or the one that reveals
      whatever elements of the hero section exist when it fires. */
  datatype Timer = RevealOne(delay: nat, element: ElementId) | RevealHero(delay: nat)

  /** The timers the contact section's callback sets for its matched descendants,
      in document order: the first at once, each next one a step later. */
  function StaggerSchedule(children: seq<ElementId>): (ts: seq<Timer>)
    ensures |ts| == |children|
    ensures forall i :: 0 <= i < |ts| ==> ts[i].RevealOne? && ts[i].element == children[i]
    ensures |ts| > 0 ==> ts[0].delay == 0
    ensures forall i :: 0 <= i < |ts| - 1 ==> ts[i + 1].delay == ts[i].delay + StaggerStep
    ensures forall i, j :: 0 <= i < j < |ts| ==> ts[i].delay < ts[j].delay
  {
    seq(|children|, i requires 0 <= i < |children| => RevealOne(i * StaggerStep, children[i]))
  }

  /** A timer that the stagger sets for one of `children`, at that child's position. */
  predicate StaggerTimer(t: Timer, children: seq<ElementId>)
  {
    exists i :: 0 <= i < |children| && t == RevealOne(i * StaggerStep, children[i])
  }

  /** The timers set by one contact-section callback: a full stagger for every
      intersecting entry of the batch, in order. */
  function ContactSchedule(entries: seq<Entry>, children: seq<ElementId>): (ts: seq<Timer>)
    ensures forall t :: t in ts ==> StaggerTimer(t, children)
    ensures (forall k :: 0 <= k < |entries| ==> !entries[k].isIntersecting) ==> ts == []
    ensures (exists k :: 0 <= k < |entries| && entries[k].isIntersecting) ==> |ts| >= |children|
  {
    if entries == [] then []
    else
      var past := ContactSchedule(entries[..|entries| - 1], children);
      var ts := past + (if entries[|entries| - 1].isIntersecting then StaggerSchedule(children) else []);
      assert forall t :: t in StaggerSchedule(children) ==> StaggerTimer(t, children);
      assert forall t :: t in ts ==> t in past || t in StaggerSchedule(children);
      ts
  }

  /** The elements a timer reveals when it fires; `hero` lists the hero section's
      animated elements at that moment. */
  function TimerTargets(t: Timer, hero: seq<ElementId>): set<ElementId>
  {
    match t
    case RevealOne(_, e) => {e}
    case RevealHero(_) => set x | x in hero
  }

  /** Firing every timer of a stagger reveals exactly the matched descendants, whatever
      the hero section holds at the time. */
  lemma StaggerRevealsChildren(children: seq<ElementId>, hero: seq<ElementId>)
    ensures forall x :: x in children
              <==> exists t :: t in StaggerSchedule(children) && x in TimerTargets(t, hero)
  {
    var ts := StaggerSchedule(children);
    forall x | x in children
      ensures exists t :: t in ts && x in TimerTargets(t, hero)
    {
      var i :| 0 <= i < |children| && children[i] == x;
      assert ts[i] in ts && x in TimerTargets(ts[i], hero);
    }
    forall x | exists t :: t in ts && x in TimerTargets(t, hero)
      ensures x in children
    {
      var t :| t in ts && x in TimerTargets(t, hero);
      var i :| 0 <= i < |ts| && ts[i] == t;
      assert x == children[i];
    }
  }

  /** The pending timers without the one at position `k`. */
  function Without(pending: seq<Timer>, k: nat): (r: seq<Timer>)
    requires k < |pending|
    ensures |r| == |pending| - 1
    ensures multiset(r) + multiset{pending[k]} == multiset(pending)
  {
    assert pending == pending[..k] + [pending[k]] + pending[k + 1..];
    pending[..k] + pending[k + 1..]
  }

  /** The revealed elements and the timers still to fire. */
  datatype RevealModel = RevealModel(revealed: set<ElementId>, pending: seq<Timer>)

  datatype RevealEvent =
    | Observed(entries: seq<Entry>)
    | ContactObserved(entries: seq<Entry>, children: seq<ElementId>)
    | Loaded
    | Fired(k: nat, hero: seq<ElementId>)

  /** What one event does: a reveal callback marks its intersecting targets, the
      contact callback and the load handler set timers, and a firing timer marks its
      targets and is gone. A timer position outside the pending list does nothing. */
  function Step(m: RevealModel, e: RevealEvent): (r: RevealModel)
    ensures m.revealed <= r.revealed
  {
    match e
    case Observed(entries) => RevealModel(m.revealed + IntersectingTargets(entries), m.pending)
    case ContactObserved(entries, children) =>
      RevealModel(m.revealed, m.pending + ContactSchedule(entries, children))
    case Loaded => RevealModel(m.revealed, m.pending + [RevealHero(HeroDelay)])
    case Fired(k, hero) =>
      if k < |m.pending| then
        RevealModel(m.revealed + TimerTargets(m.pending[k], hero), Without(m.pending, k))
      else m
  }

  /** How the browser divides entries among reveal callbacks does not matter, and a
      batch delivered again reveals nothing more. */
  lemma ObservedSplit(m: RevealModel, a: seq<Entry>, b: seq<Entry>)
    ensures Step(Step(m, Observed(a)), Observed(b)) == Step(m, Observed(a + b))
    ensures Step(Step(m, Observed(a)), Observed(a)) == Step(m, Observed(a))
  {
    IntersectingTargetsAppend(a, b);
  }

  function Run(m: RevealModel, events: seq<RevealEvent>): RevealModel
    decreases |events|
  {
    if events == [] then m else Run(Step(m, events[0]), events[1..])
  }

  /** Whatever is observed, scheduled or fired, an element once revealed stays revealed. */
  lemma {:induction false} RevealedOnlyGrows(m: RevealModel, events: seq<RevealEvent>)
    ensures m.revealed <= Run(m, events).revealed
    decreases |events|
  {
    if events != [] {
      RevealedOnlyGrows(Step(m, events[0]), events[1..]);
    }
  }

  /** Every child of the contact section gets a timer of its own from an intersecting
      callback, at its stagger position, and firing that timer reveals it. */
  lemma ContactChildScheduled(m: RevealModel, entries: seq<Entry>, children: seq<ElementId>, i: nat)
    requires entries != [] && entries[|entries| - 1].isIntersecting
    requires i < |children|
    ensures var after := Step(m, ContactObserved(entries, children));
            var k := |m.pending| + |ContactSchedule(entries[..|entries| - 1], children)| + i;
            && k < |after.pending|
            && after.pending[k] == RevealOne(i * StaggerStep, children[i])
            && children[i] in Step(after, Fired(k, [])).revealed
  {
    var past := ContactSchedule(entries[..|entries| - 1], children);
    var stagger := StaggerSchedule(children);
    assert ContactSchedule(entries, children) == past + stagger;
    var after := RevealModel(m.revealed, m.pending + past + stagger);
    assert Step(m, ContactObserved(entries, children)) == after;
    var k := |m.pending| + |past| + i;
    assert after.pending[k] == stagger[i];
    assert TimerTargets(after.pending[k], []) == {children[i]};
  }

  /** Every intersecting entry of a contact batch, wherever it stands in the batch,
      gives every matched descendant its own timer at its stagger delay. */
  lemma {:induction false} ContactScheduleCovers(entries: seq<Entry>, children: seq<ElementId>, k: nat, i: nat)
    requires k < |entries| && entries[k].isIntersecting && i < |children|
    ensures RevealOne(i * StaggerStep, children[i]) in ContactSchedule(entries, children)
    decreases |entries|
  {
    var past := ContactSchedule(entries[..|entries| - 1], children);
    var last := if entries[|entries| - 1].isIntersecting then StaggerSchedule(children) else [];
    assert ContactSchedule(entries, children) == past + last;
    if k == |entries| - 1 {
      assert last[i] == RevealOne(i * StaggerStep, children[i]);
    } else {
      assert entries[..|entries| - 1][k] == entries[k];
      ContactScheduleCovers(entries[..|entries| - 1], children, k, i);
    }
  }

  class RevealState {
    var revealed: set<ElementId>
    var pending: seq<Timer>

    function Model(): RevealModel
      reads this
    {
      RevealModel(revealed, pending)
    }

    constructor ()
      ensures revealed == {} && pending == []
    {
      revealed, pending := {}, [];
    }

    /** The callback of the general reveal observer. */
    method OnRevealEntries(entries: seq<Entry>)
      modifies this
      ensures Model() == Step(old(Model()), Observed(entries))
    {
      var i := 0;
      while i < |entries|
        invariant 0 <= i <= |entries|
        invariant revealed == old(revealed) + IntersectingTargets(entries[..i])
        invariant pending == old(pending)
      {
        assert entries[..i + 1][..i] == entries[..i];
        if entries[i].isIntersecting {
          revealed := revealed + {entries[i].target};
        }
        assert IntersectingTargets(entries[..i + 1])
               == IntersectingTargets(entries[..i]) + (if entries[i].isIntersecting then {entries[i].target} else {});
        i := i + 1;
      }
      assert entries[..i] == entries;
    }

    /** Sets one timer per matched descendant, in document order. */
    method ScheduleStagger(children: seq<ElementId>)
      modifies this
      ensures revealed == old(revealed)
      ensures pending == old(pending) + StaggerSchedule(children)
    {
      var index := 0;
      while index < |children|
        invariant 0 <= index <= |children|
        invariant revealed == old(revealed)
        invariant pending == old(pending) + StaggerSchedule(children)[..index]
      {
        assert StaggerSchedule(children)[..index + 1]
               == StaggerSchedule(children)[..index] + [RevealOne(index * StaggerStep, children[index])];
        pending := pending + [RevealOne(index * StaggerStep, children[index])];
        index := index + 1;
      }
      assert StaggerSchedule(children)[..index] == StaggerSchedule(children);
    }

    /** The callback of the contact-section observer; `children` are the section's
        animated descendants. */
    method OnContactEntries(entries: seq<Entry>, children: seq<ElementId>)
      modifies this
      ensures Model() == Step(old(Model()), ContactObserved(entries, children))
    {
      var i := 0;
      while i < |entries|
        invariant 0 <= i <= |entries|
        invariant revealed == old(revealed)
        invariant pending == old(pending) + ContactSchedule(entries[..i], children)
      {
        assert entries[..i + 1][..i] == entries[..i];
        if entries[i].isIntersecting {
          ScheduleStagger(children);
        }
        i := i + 1;
      }
      assert entries[..i] == entries;
    }

    /** The load handler. */
    method OnLoad()
      modifies this
      ensures Model() == Step(old(Model()), Loaded)
    {
      pending := pending + [RevealHero(HeroDelay)];
    }

    /** The pending timer at position `k` fires; `hero` lists the hero section's
        animated elements at that moment. */
    method FireTimer(k: nat, hero: seq<ElementId>)
      requires k < |pending|
      modifies this
      ensures Model() == Step(old(Model()), Fired(k, hero))
    {
      var t := pending[k];
      pending := Without(pending, k);
      match t
      case RevealOne(_, e) =>
        revealed := revealed + {e};
      case RevealHero(_) =>
        var index := 0;
        while index < |hero|
          invariant 0 <= index <= |hero|
          invariant revealed == old(revealed) + set x | x in hero[..index]
          invariant pending == Without(old(pending), k)
        {
          assert hero[..index + 1] == hero[..index] + [hero[index]];
          revealed := revealed + {hero[index]};
          index := index + 1;
        }
        assert hero[..index] == hero;
    }
  }
}
