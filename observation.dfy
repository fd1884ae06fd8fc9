/**
 What a viewport-intersection callback delivers: a batch of entries, each naming
 the observed element it is about (by its position in the observed list) and
 whether that element is now intersecting. The handlers of the page go through
 a batch in order, so the last intersecting entry of a batch has the final say.
 */
module Observation {
  import opened Wrappers

  datatype Entry = Entry(target: nat, isIntersecting: bool)

  /** Every entry of the batch is about one of the first `n` observed elements. */
  predicate TargetsBelow(entries: seq<Entry>, n: nat)
  {
    forall k :: 0 <= k < |entries| ==> entries[k].target < n
  }

  /** The target of the last intersecting entry of a batch, if there is one. */
  function LastIntersecting(entries: seq<Entry>): (r: Option<nat>)
    ensures r.None? <==> forall k :: 0 <= k < |entries| ==> !entries[k].isIntersecting
    ensures r.Some? ==>
              exists k :: 0 <= k < |entries| && entries[k].isIntersecting && entries[k].target == r.value
                          && forall j :: k < j < |entries| ==> !entries[j].isIntersecting
  {
    if |entries| == 0 then None
    else if entries[|entries| - 1].isIntersecting then Some(entries[|entries| - 1].target)
    else LastIntersecting(entries[..|entries| - 1])
  }

  /** The targets of all intersecting entries of a batch. */
  function IntersectingTargets(entries: seq<Entry>): set<nat>
  {
    set k | 0 <= k < |entries| && entries[k].isIntersecting :: entries[k].target
  }

  /** The targets of a batch split in two are those of its halves together, so it
      does not matter how the entries are divided among callbacks. */
  lemma {:induction false} IntersectingTargetsAppend(a: seq<Entry>, b: seq<Entry>)
    ensures IntersectingTargets(a + b) == IntersectingTargets(a) + IntersectingTargets(b)
  {
    var ab := a + b;
    forall x | x in IntersectingTargets(ab)
      ensures x in IntersectingTargets(a) + IntersectingTargets(b)
    {
      var k :| 0 <= k < |ab| && ab[k].isIntersecting && ab[k].target == x;
      if k < |a| {
        assert a[k] == ab[k];
      } else {
        assert b[k - |a|] == ab[k];
      }
    }
    forall x | x in IntersectingTargets(a)
      ensures x in IntersectingTargets(ab)
    {
      var k :| 0 <= k < |a| && a[k].isIntersecting && a[k].target == x;
      assert ab[k] == a[k];
    }
    forall x | x in IntersectingTargets(b)
      ensures x in IntersectingTargets(ab)
    {
      var k :| 0 <= k < |b| && b[k].isIntersecting && b[k].target == x;
      assert ab[|a| + k] == b[k];
    }
  }
}
