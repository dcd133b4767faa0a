/**
 * The home-page script js/index.js: the staggered hero reveal, its own copy of
 * the waitlist form (which, unlike app.js, reports storage failures), and the
 * bento-grid reveal.
 */
module HomePage {
  import opened Wrappers
  import opened Text
  import Email
  import Dom
  import Storage
  import Site

  /** The default stagger between consecutive hero elements, in milliseconds. */
  const Stagger := 100

  /**
   * The value `element.dataset.revealDelay || index * 100` gives `setTimeout`:
   * the attribute's text when it is present and non-empty, otherwise a number.
   */
  datatype Delay = AttributeText(text: string) | Millis(ms: nat)

  function HeroDelay(attrs: map<string, string>, index: nat): (d: Delay)
    ensures Site.RevealDelayAttribute in attrs && attrs[Site.RevealDelayAttribute] != "" ==> d == AttributeText(attrs[Site.RevealDelayAttribute])
    ensures Site.RevealDelayAttribute !in attrs || attrs[Site.RevealDelayAttribute] == "" ==> d == Millis(index * Stagger)
  {
    if Site.RevealDelayAttribute in attrs && attrs[Site.RevealDelayAttribute] != "" then AttributeText(attrs[Site.RevealDelayAttribute])
    else Millis(index * Stagger)
  }

  /** An explicit "0" is a non-empty string, so it is kept rather than replaced by the stagger. */
  lemma ExplicitZeroIsKept(attrs: map<string, string>, index: nat)
    requires Site.RevealDelayAttribute in attrs && attrs[Site.RevealDelayAttribute] == "0"
    ensures HeroDelay(attrs, index) == AttributeText("0")
  {
  }

  /** Without the attribute, later elements wait strictly longer, 100 ms per position. */
  lemma DefaultStaggerIncreases(i: nat, j: nat)
    requires i < j
    ensures HeroDelay(map[], i).ms < HeroDelay(map[], j).ms
    ensures HeroDelay(map[], j).ms - HeroDelay(map[], i).ms == (j - i) * Stagger
  {
  }

  /** A hero timer: when it runs it makes its target opaque and moves it into place. */
  datatype HeroTimer = HeroTimer(delay: Delay, target: Dom.Element)

  /** `animateHeroElements`: one timer per element, in document order. It writes nothing itself. */
  method AnimateHeroElements(elements: seq<Dom.Element>) returns (timers: seq<HeroTimer>)
    ensures |timers| == |elements|
    ensures forall i :: 0 <= i < |elements| ==> timers[i] == HeroTimer(HeroDelay(elements[i].attrs, i), elements[i])
  {
    timers := [];
    var i := 0;
    while i < |elements|
      invariant 0 <= i <= |elements| && |timers| == i
      invariant forall k :: 0 <= k < i ==> timers[k] == HeroTimer(HeroDelay(elements[k].attrs, k), elements[k])
    {
      timers := timers + [HeroTimer(HeroDelay(elements[i].attrs, i), elements[i])];
      i := i + 1;
    }
  }

  /** The styles a revealed element ends with (both in the hero and in the bento grid). */
  function Revealed(styles: map<string, string>): (r: map<string, string>)
    ensures r.Keys == styles.Keys + {"opacity", "transform"}
    ensures r["opacity"] == "1" && r["transform"] == "translateY(0)"
    ensures forall k :: k in styles && k != "opacity" && k != "transform" ==> r[k] == styles[k]
  {
    styles["opacity" := "1"]["transform" := "translateY(0)"]
  }

  /** Revealing twice is revealing once. */
  lemma RevealedIdempotent(styles: map<string, string>)
    ensures Revealed(Revealed(styles)) == Revealed(styles)
  {
    assert Revealed(Revealed(styles)).Keys == Revealed(styles).Keys;
  }

  /** A hero timer runs. */
  method FireHeroTimer(t: HeroTimer)
    modifies t.target`styles
    ensures t.target.styles == Revealed(old(t.target.styles))
    ensures t.target.classes == old(t.target.classes) && t.target.attrs == old(t.target.attrs)
  {
    t.target.styles := Revealed(t.target.styles);
  }

  /**
   * The names an object literal inherits from `Object.prototype`. Looking one
   * of them up in the colour table gives a function or an object, not a colour.
   */
  const ObjectPrototypeNames: set<string> := {
    "constructor", "hasOwnProperty", "isPrototypeOf", "propertyIsEnumerable",
    "toLocaleString", "toString", "valueOf", "__proto__",
    "__defineGetter__", "__defineSetter__", "__lookupGetter__", "__lookupSetter__"
  }

  /**
   * `showMessage`'s colour, `colors[type] || colors.info` on the literal
   * `{error, success, info}`. An own key gives its colour and any other name
   * falls back to the info colour, except an inherited name: its value is
   * truthy, so there is no fallback, and it is no colour, so the style
   * ignores the write. `None` is that ignored write.
   */
  function IndexColor(kind: string): (c: Option<string>)
    ensures c.None? <==> kind in ObjectPrototypeNames
    ensures kind == "error" ==> c == Some("#ef4444")
    ensures kind == "success" ==> c == Some("#10b981")
    ensures kind == "info" ==> c == Some("inherit")
  {
    var colors := map["error" := "#ef4444", "success" := "#10b981", "info" := "inherit"];
    if kind in colors && colors[kind] != "" then Some(colors[kind])
    else if kind in ObjectPrototypeNames then None
    else Some(colors["info"])
  }

  /** Outside the inherited names, the lookup gives the same colour as app.js's conditional. */
  lemma IndexColorAgrees(kind: string)
    requires kind !in ObjectPrototypeNames
    ensures IndexColor(kind) == Some(Site.MessageColor(kind))
    ensures kind != "error" && kind != "success" ==> IndexColor(kind) == IndexColor("info")
  {
  }

  /** The style map after `style.color` is assigned the looked-up colour of `kind`. */
  function ColorWritten(styles: map<string, string>, kind: string): (r: map<string, string>)
    ensures IndexColor(kind).Some? ==> r == styles["color" := IndexColor(kind).value]
    ensures IndexColor(kind).None? ==> r == styles
  {
    match IndexColor(kind)
    case Some(c) => styles["color" := c]
    case None => styles
  }

  const WentWrongText := "Something went wrong. Please try again."

  /** The home page's `WaitlistForm`; its handler is attached only when the form exists. */
  class WaitlistForm {
    const hasForm: bool
    const message: Dom.Element?

    constructor (hasForm: bool, message: Dom.Element?)
      ensures this.hasForm == hasForm && this.message == message
    {
      this.hasForm, this.message := hasForm, message;
    }

    /** `showMessage(text, type)`: a no-op when the message element is missing. */
    method ShowMessage(m: Site.Message)
      modifies message
      ensures message != null ==> message.text == m.text && !message.hidden
      ensures message != null ==> message.styles == ColorWritten(old(message.styles), m.kind)
      ensures message != null ==> message.classes == old(message.classes) && message.attrs == old(message.attrs)
    {
      if message == null {
        return;
      }
      message.text := m.text;
      message.hidden := false;
      message.styles := ColorWritten(message.styles, m.kind);
    }

    /**
     * `handleSubmit`. An invalid address (the empty one included) shows one
     * error and stores nothing. Otherwise "Submitting..." is shown first; the
     * record is appended, and success is reported only when that worked; a
     * storage or parse failure reports "Something went wrong" instead.
     */
    method HandleSubmit(store: Storage.LocalStorage, rawEmail: string, role: string, now: int)
      returns (shown: seq<Site.Message>)
      requires hasForm
      modifies store, message
      ensures var email := Trim(rawEmail);
        if !Email.IsValidEmail(email) then
          shown == [Site.Message(Site.InvalidEmailText, "error")] && store.lists == old(store.lists)
        else
          var existing := old(store.ReadList(Storage.WaitlistKey));
          if existing.Some? && store.writable then
            && shown == [Site.Message(Site.SubmittingText, "info"), Site.Message(Site.WaitlistThanksText, "success")]
            && store.lists == old(store.lists)[Storage.WaitlistKey := Storage.Records(existing.value + [Storage.HomeWaitlist(email, role, now)])]
          else
            && shown == [Site.Message(Site.SubmittingText, "info"), Site.Message(WentWrongText, "error")]
            && store.lists == old(store.lists)
      ensures store.texts == old(store.texts) && store.readable == old(store.readable) && store.writable == old(store.writable)
      ensures message != null ==> Site.Displays(message, shown, old(message.styles))
      ensures message != null ==> message.classes == old(message.classes) && message.attrs == old(message.attrs)
    {
      var email := Trim(rawEmail);
      if !Email.IsValidEmail(email) {
        shown := [Site.Message(Site.InvalidEmailText, "error")];
        ShowMessage(shown[0]);
        return;
      }
      var submitting := Site.Message(Site.SubmittingText, "info");
      ShowMessage(submitting);
      var outcome := StoreAndReport(store, email, role, now);
      shown := [submitting, outcome];
      if message != null {
        Site.ColorOverwritten(old(message.styles), Site.MessageColor("info"), Site.MessageColor(outcome.kind));
      }
    }

    /**
     * The `try` block of `handleSubmit`: append the record, then report success;
     * any storage or parse failure is caught and reported as an error.
     */
    method StoreAndReport(store: Storage.LocalStorage, email: string, role: string, now: int) returns (outcome: Site.Message)
      modifies store, message
      ensures var existing := old(store.ReadList(Storage.WaitlistKey));
        if existing.Some? && store.writable then
          && outcome == Site.Message(Site.WaitlistThanksText, "success")
          && store.lists == old(store.lists)[Storage.WaitlistKey := Storage.Records(existing.value + [Storage.HomeWaitlist(email, role, now)])]
        else
          outcome == Site.Message(WentWrongText, "error") && store.lists == old(store.lists)
      ensures store.texts == old(store.texts) && store.readable == old(store.readable) && store.writable == old(store.writable)
      ensures message != null ==> message.text == outcome.text && !message.hidden
      ensures message != null ==> message.styles == old(message.styles)["color" := Site.MessageColor(outcome.kind)]
      ensures message != null ==> message.classes == old(message.classes) && message.attrs == old(message.attrs)
    {
      var ok := store.Append(Storage.WaitlistKey, Storage.HomeWaitlist(email, role, now));
      outcome := if ok then Site.Message(Site.WaitlistThanksText, "success") else Site.Message(WentWrongText, "error");
      ShowMessage(outcome);
    }
  }

  /** Every entry's target ends revealed if some entry of the batch for it intersects, and untouched otherwise. */
  ghost predicate BatchRevealed(entries: seq<Dom.ObserverEntry>, k: nat, oldStyles: map<string, string>)
    requires k < |entries|
    reads entries[k].target
  {
    entries[k].target.styles ==
      if entries[k].target in Dom.IntersectingTargets(entries) then Revealed(oldStyles) else oldStyles
  }

  /** The bento reveal: observed items stay observed, so a later batch may reveal them again. */
  class BentoReveal {
    var observed: set<Dom.Element>

    /** The styles `setupScrollAnimations` gives each item before observing it. */
    static function Hidden(styles: map<string, string>): (r: map<string, string>)
      ensures r.Keys == styles.Keys + {"opacity", "transform", "transition"}
      ensures r["opacity"] == "0" && r["transform"] == "translateY(30px)" && r["transition"] == "all 0.6s ease"
      ensures forall k :: k in styles && k !in {"opacity", "transform", "transition"} ==> r[k] == styles[k]
    {
      styles["opacity" := "0"]["transform" := "translateY(30px)"]["transition" := "all 0.6s ease"]
    }

    /** `setupScrollAnimations`, when the browser has `IntersectionObserver`: hide every item and observe it. */
    constructor (items: seq<Dom.Element>)
      modifies (set x | x in items)`styles
      ensures observed == set x | x in items
      ensures forall k :: 0 <= k < |items| ==> items[k].styles == Hidden(old(items[k].styles))
      ensures forall k :: 0 <= k < |items| ==> items[k].classes == old(items[k].classes) && items[k].attrs == old(items[k].attrs)
    {
      observed := set x | x in items;
      new;
      var i := 0;
      while i < |items|
        invariant 0 <= i <= |items|
        invariant observed == set x | x in items
        invariant forall x :: x in items ==> x.classes == old(x.classes) && x.attrs == old(x.attrs)
        invariant forall k :: 0 <= k < |items| ==>
          items[k].styles == if items[k] in items[..i] then Hidden(old(items[k].styles)) else old(items[k].styles)
      {
        var item := items[i];
        item.styles := Hidden(item.styles);
        assert items[..i + 1] == items[..i] + [item];
        i := i + 1;
      }
      assert items[..i] == items;
    }

    /**
     * The observer callback: each intersecting target is revealed, with no
     * `unobserve`. Revealing is idempotent, so a target that appears twice
     * ends as if it had appeared once.
     */
    method OnEntries(entries: seq<Dom.ObserverEntry>)
      modifies (set e | e in entries :: e.target)`styles
      ensures forall k :: 0 <= k < |entries| ==> BatchRevealed(entries, k, old(entries[k].target.styles))
      ensures forall k :: 0 <= k < |entries| ==>
        entries[k].target.classes == old(entries[k].target.classes) && entries[k].target.attrs == old(entries[k].target.attrs)
    {
      var i := 0;
      while i < |entries|
        invariant 0 <= i <= |entries|
        invariant forall k :: 0 <= k < |entries| ==>
          entries[k].target.classes == old(entries[k].target.classes) && entries[k].target.attrs == old(entries[k].target.attrs)
        invariant forall k :: 0 <= k < |entries| ==>
          entries[k].target.styles ==
            if entries[k].target in Dom.IntersectingTargets(entries[..i]) then Revealed(old(entries[k].target.styles))
            else old(entries[k].target.styles)
      {
        var e := entries[i];
        Dom.IntersectingTargetsSnoc(entries, i);
        if e.isIntersecting {
          RevealedIdempotent(old(e.target.styles));
          e.target.styles := Revealed(e.target.styles);
        }
        i := i + 1;
      }
      assert entries[..i] == entries;
    }
  }

  /** A bento item that is hidden, scrolls into view twice and is revealed: the second reveal changes nothing. */
  method BentoRevealTwice() returns (afterFirst: map<string, string>, afterSecond: map<string, string>)
    ensures afterFirst == afterSecond
    ensures "opacity" in afterFirst && afterFirst["opacity"] == "1"
    ensures "transform" in afterFirst && afterFirst["transform"] == "translateY(0)"
    ensures "transition" in afterFirst && afterFirst["transition"] == "all 0.6s ease"
  {
    var item := new Dom.Element();
    var hidden := BentoReveal.Hidden(map[]);
    var items := [item];
    assert item.styles == map[];
    var bento := new BentoReveal(items);
    assert items[0] == item;
    assert item.styles == hidden;
    var batch := [Dom.ObserverEntry(item, true)];
    assert item in Dom.IntersectingTargets(batch);
    bento.OnEntries(batch);
    assert BatchRevealed(batch, 0, hidden);
    afterFirst := item.styles;
    assert afterFirst == Revealed(hidden);
    bento.OnEntries(batch);
    afterSecond := item.styles;
    assert "transition" in hidden && hidden["transition"] == "all 0.6s ease";
    assert Revealed(hidden)["transition"] == "all 0.6s ease";
    RevealedIdempotent(hidden);
  }
}
