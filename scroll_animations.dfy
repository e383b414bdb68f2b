/**
 * Scroll-triggered reveal: every target is marked ready and observed; when a
 * batch reports targets intersecting, each one gets a timer that adds
 * `animate-in` after a delay of 100 ms per batch position, and is unobserved.
 */
module ScrollAnimations {
  import opened Dom

  /** Stagger between positions in one batch, in milliseconds. */
  const StaggerMs: nat := 100

  /** A pending `setTimeout` that will add `animate-in` to `target`. */
  datatype Reveal = Reveal(target: ElemId, delay: nat)

  /** The timers one batch sets, in batch order. */
  function Staggered(entries: seq<Entry>): (r: seq<Reveal>)
    ensures |r| <= |entries|
    ensures forall p :: 0 <= p < |r| ==> r[p].delay % StaggerMs == 0
  {
    if entries == [] then []
    else
      var n := |entries| - 1;
      Staggered(entries[..n]) + (if entries[n].isIntersecting then [Reveal(entries[n].target, n * StaggerMs)] else [])
  }

  /** A timer is set for exactly the intersecting entries, each at 100 ms times its batch position. */
  lemma {:induction false} StaggeredMember(entries: seq<Entry>, r: Reveal)
    ensures r in Staggered(entries) <==>
            exists i :: 0 <= i < |entries| && entries[i].isIntersecting && r == Reveal(entries[i].target, i * StaggerMs)
  {
    if entries != [] {
      var n := |entries| - 1;
      var init := entries[..n];
      StaggeredMember(init, r);
      if r in Staggered(init) {
        var i :| 0 <= i < |init| && init[i].isIntersecting && r == Reveal(init[i].target, i * StaggerMs);
        assert entries[i] == init[i];
      }
      if exists i :: 0 <= i < |entries| && entries[i].isIntersecting && r == Reveal(entries[i].target, i * StaggerMs) {
        var i :| 0 <= i < |entries| && entries[i].isIntersecting && r == Reveal(entries[i].target, i * StaggerMs);
        if i < n {
          assert init[i] == entries[i];
        }
      }
    }
  }

  /** Delays strictly increase along the batch: reveal order is batch order. */
  lemma {:induction false} StaggeredOrdered(entries: seq<Entry>)
    ensures forall p, q :: 0 <= p < q < |Staggered(entries)| ==> Staggered(entries)[p].delay < Staggered(entries)[q].delay
    ensures forall p :: 0 <= p < |Staggered(entries)| ==> Staggered(entries)[p].delay < |entries| * StaggerMs
  {
    if entries != [] {
      var n := |entries| - 1;
      StaggeredOrdered(entries[..n]);
    }
  }

  /** With distinct targets in the batch, no element gets two timers. */
  lemma StaggeredDistinct(entries: seq<Entry>)
    requires forall i, j :: 0 <= i < j < |entries| ==> entries[i].target != entries[j].target
    ensures forall p, q :: 0 <= p < q < |Staggered(entries)| ==> Staggered(entries)[p].target != Staggered(entries)[q].target
  {
    var s := Staggered(entries);
    StaggeredOrdered(entries);
    forall p, q | 0 <= p < q < |s|
      ensures s[p].target != s[q].target
    {
      StaggeredMember(entries, s[p]);
      StaggeredMember(entries, s[q]);
      var i :| 0 <= i < |entries| && entries[i].isIntersecting && s[p] == Reveal(entries[i].target, i * StaggerMs);
      var j :| 0 <= j < |entries| && entries[j].isIntersecting && s[q] == Reveal(entries[j].target, j * StaggerMs);
      assert i != j;
    }
  }

  class ScrollAnimator {
    /** Elements carrying `animate-ready`. */
    var ready: set<ElemId>
    /** Elements the observer still watches. */
    var observed: set<ElemId>
    /** Timers set and not yet fired. */
    var pending: seq<Reveal>
    /** Elements carrying `animate-in`. */
    var animated: set<ElemId>

    /**
     * An element is in at most one of three stages: observed, waiting on its
     * timer, or animated; and only ready elements are in any of them.
     */
    ghost predicate Valid()
      reads this
    {
      observed <= ready && animated <= ready &&
      (forall p :: 0 <= p < |pending| ==> pending[p].target in ready) &&
      (forall p :: 0 <= p < |pending| ==> pending[p].target !in observed && pending[p].target !in animated) &&
      (forall p, q :: 0 <= p < q < |pending| ==> pending[p].target != pending[q].target) &&
      observed * animated == {}
    }

    /** Setup: every target is marked ready and observed. */
    constructor (targets: seq<ElemId>)
      ensures Valid()
      ensures ready == observed == set t | t in targets
      ensures pending == [] && animated == {}
    {
      ready := set t | t in targets;
      observed := set t | t in targets;
      pending := [];
      animated := {};
    }

    /** The observer callback. */
    method OnIntersect(entries: seq<Entry>)
      requires Valid() && Deliverable(entries, observed)
      modifies this`observed, this`pending
      ensures Valid()
      ensures pending == old(pending) + Staggered(entries)
      ensures observed == old(observed) - IntersectingTargets(entries)
    {
      var index := 0;
      while index < |entries|
        invariant 0 <= index <= |entries|
        invariant Valid()
        invariant pending == old(pending) + Staggered(entries[..index])
        invariant observed == old(observed) - IntersectingTargets(entries[..index])
        invariant forall k :: index <= k < |entries| ==> entries[k].target in observed
      {
        var entry := entries[index];
        assert entries[..index + 1][..index] == entries[..index];
        if entry.isIntersecting {
          pending := pending + [Reveal(entry.target, index * StaggerMs)];
          observed := observed - {entry.target};
        }
        index := index + 1;
      }
      assert entries[..index] == entries;
    }

    /** The `k`th pending timer fires: its element gets `animate-in`, for the first and only time. */
    method Fire(k: nat)
      requires Valid() && k < |pending|
      modifies this`pending, this`animated
      ensures Valid()
      ensures old(pending[k].target) !in old(animated)
      ensures animated == old(animated) + {old(pending[k].target)}
      ensures pending == old(pending[..k] + pending[k + 1..])
    {
      var t := pending[k].target;
      pending := pending[..k] + pending[k + 1..];
      animated := animated + {t};
      assert forall p :: 0 <= p < |pending| ==> pending[p] == old(pending)[if p < k then p else p + 1];
    }
  }
}
