/**
 * The fade-in `IntersectionObserver` callback (script.js): for each reported entry
 * that is intersecting, the target gains the `fade-in` class and is unobserved.
 * Elements are identified by number; the observer's geometry (threshold, root margin)
 * is left to the caller, which reports entries.
 */
module FadeIn {

  datatype Entry = Entry(target: nat, isIntersecting: bool)

  /** The targets of the intersecting entries of a batch. */
  function Intersecting(entries: seq<Entry>): (r: set<nat>)
    ensures forall t :: t in r <==> exists k :: 0 <= k < |entries| && entries[k].target == t && entries[k].isIntersecting
  {
    if entries == [] then {}
    else (if entries[0].isIntersecting then {entries[0].target} else {}) + Intersecting(entries[1..])
  }

  /**
   * The observed set and the set of elements carrying `fade-in`. The elements are
   * observed at load, before any of them has faded in.
   */
  class Observer {
    var observed: set<nat>
    var fadedIn: set<nat>

    /** An element that has faded in is no longer observed. */
    ghost predicate Valid()
      reads this
    {
      observed !! fadedIn
    }

    constructor (targets: set<nat>)
      ensures Valid()
      ensures observed == targets && fadedIn == {}
    {
      observed := targets;
      fadedIn := {};
    }

    /** The observer's callback on one batch of entries. */
    method Callback(entries: seq<Entry>)
      requires Valid()
      modifies this
      ensures Valid()
      ensures fadedIn == old(fadedIn) + Intersecting(entries)
      ensures observed == old(observed) - Intersecting(entries)
    {
      var k := 0;
      while k < |entries|
        invariant 0 <= k <= |entries|
        invariant fadedIn == old(fadedIn) + Intersecting(entries[..k])
        invariant observed == old(observed) - Intersecting(entries[..k])
      {
        var entry := entries[k];
        if entry.isIntersecting {
          fadedIn := fadedIn + {entry.target};
          observed := observed - {entry.target};
        }
        assert entries[..k + 1] == entries[..k] + [entry];
        IntersectingSnoc(entries[..k], entry);
        k := k + 1;
      }
      assert entries[..k] == entries;
    }
  }

  lemma IntersectingSnoc(entries: seq<Entry>, e: Entry)
    ensures Intersecting(entries + [e]) == Intersecting(entries) + (if e.isIntersecting then {e.target} else {})
  {
    var l := entries + [e];
    forall t ensures t in Intersecting(l) <==> t in Intersecting(entries) + (if e.isIntersecting then {e.target} else {}) {
      if t in Intersecting(l) {
        var k :| 0 <= k < |l| && l[k].target == t && l[k].isIntersecting;
        if k < |entries| {
          assert entries[k] == l[k];
        }
      }
      if t in Intersecting(entries) {
        var k :| 0 <= k < |entries| && entries[k].target == t && entries[k].isIntersecting;
        assert l[k] == entries[k];
      }
      if e.isIntersecting && t == e.target {
        assert l[|entries|] == e;
      }
    }
  }
}
