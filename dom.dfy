/**
 * The slice of a DOM element the site's scripts touch: its class list, its
 * attributes, its inline style properties, its text and its `hidden` flag.
 */
module Dom {
  class Element {
    var classes: set<string>
    var attrs: map<string, string>
    var styles: map<string, string>
    var text: string
    var hidden: bool

    constructor ()
      ensures classes == {} && attrs == map[] && styles == map[] && text == "" && hidden
    {
      classes, attrs, styles, text, hidden := {}, map[], map[], "", true;
    }
  }

  /** `el.style.<name>` read from a style map: a property that was never set reads as the empty string. */
  function StyleValue(styles: map<string, string>, name: string): (v: string)
    ensures name in styles ==> v == styles[name]
    ensures name !in styles ==> v == ""
  {
    if name in styles then styles[name] else ""
  }

  /**
   * An `IntersectionObserverEntry`: the target and whether it crossed the
   * observer's threshold into view (the thresholds themselves are not modelled).
   */
  datatype ObserverEntry = ObserverEntry(target: Element, isIntersecting: bool)

  /** The targets of a batch that intersect. */
  function IntersectingTargets(entries: seq<ObserverEntry>): set<Element> {
    if entries == [] then {}
    else
      var n := |entries| - 1;
      IntersectingTargets(entries[..n]) + if entries[n].isIntersecting then {entries[n].target} else {}
  }

  /** Extending a batch by its next entry adds that entry's target when it intersects. */
  lemma IntersectingTargetsSnoc(entries: seq<ObserverEntry>, i: nat)
    requires i < |entries|
    ensures IntersectingTargets(entries[..i + 1]) ==
      IntersectingTargets(entries[..i]) + if entries[i].isIntersecting then {entries[i].target} else {}
  {
    assert entries[..i + 1][..i] == entries[..i];
  }

  /** A target is among the intersecting ones exactly when some entry for it intersects. */
  lemma {:induction false} IntersectingTargetsMembers(entries: seq<ObserverEntry>, t: Element)
    ensures t in IntersectingTargets(entries) <==>
      exists k :: 0 <= k < |entries| && entries[k].isIntersecting && entries[k].target == t
  {
    if entries != [] {
      var n := |entries| - 1;
      IntersectingTargetsMembers(entries[..n], t);
      if t in IntersectingTargets(entries[..n]) {
        var k :| 0 <= k < n && entries[..n][k].isIntersecting && entries[..n][k].target == t;
        assert entries[k] == entries[..n][k];
      }
      if exists k :: 0 <= k < |entries| && entries[k].isIntersecting && entries[k].target == t {
        var k :| 0 <= k < |entries| && entries[k].isIntersecting && entries[k].target == t;
        if k < n {
          assert entries[..n][k] == entries[k];
        }
      }
    }
  }
}
