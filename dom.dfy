/**
 * The small part of the document the controllers touch: elements whose text
 * content is rewritten in place, and the entries an IntersectionObserver
 * hands to its callback.
 */
module Dom {

  /** An element identified by its position in the document. */
  type ElemId = nat

  /** An element whose `textContent` the page rewrites. */
  class TextElement {
    var textContent: string

    constructor (text: string)
      ensures textContent == text
    {
      textContent := text;
    }
  }

  /** One IntersectionObserverEntry: the observed target and whether it now intersects. */
  datatype Entry = Entry(target: ElemId, isIntersecting: bool)

  /** The targets of the intersecting entries of a batch. */
  function IntersectingTargets(entries: seq<Entry>): set<ElemId>
  {
    if entries == [] then {}
    else
      var last := entries[|entries| - 1];
      IntersectingTargets(entries[..|entries| - 1]) + (if last.isIntersecting then {last.target} else {})
  }

  lemma {:induction false} IntersectingTargetsMember(entries: seq<Entry>, t: ElemId)
    ensures t in IntersectingTargets(entries) <==>
            exists i :: 0 <= i < |entries| && entries[i].isIntersecting && entries[i].target == t
  {
    if entries != [] {
      var init := entries[..|entries| - 1];
      IntersectingTargetsMember(init, t);
      if t in IntersectingTargets(init) {
        var i :| 0 <= i < |init| && init[i].isIntersecting && init[i].target == t;
        assert entries[i] == init[i];
      }
      if exists i :: 0 <= i < |entries| && entries[i].isIntersecting && entries[i].target == t {
        var i :| 0 <= i < |entries| && entries[i].isIntersecting && entries[i].target == t;
        if i < |init| {
          assert init[i] == entries[i];
        }
      }
    }
  }

  /**
   * What the model assumes of a batch handed to an observer callback: every
   * entry is about an element still observed, and no element appears twice.
   * The browser does not promise the second half: entries queue until its
   * notification task runs, so one batch can name the same element twice.
   */
  predicate Deliverable(entries: seq<Entry>, observed: set<ElemId>)
  {
    (forall i :: 0 <= i < |entries| ==> entries[i].target in observed) &&
    (forall i, j :: 0 <= i < j < |entries| ==> entries[i].target != entries[j].target)
  }
}
