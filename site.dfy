/**
 * The site-wide script app.js: the waitlist and survey forms with their mock
 * persistence in local storage, the mobile menu, and the one-shot observers
 * that reveal elements and replay progress bars when they come into view.
 */
module Site {
  import opened Wrappers
  import opened Text
  import Email
  import Dom
  import Storage

  /** A message the handlers show: its text and its type ('error', 'success' or 'info'). */
  datatype Message = Message(text: string, kind: string)

  const InvalidEmailText := "Please enter a valid email address."
  const SubmittingText := "Submitting..."
  const WaitlistThanksText := "Thanks! You're on the list. We'll reach out soon."
  const MissingFieldText := "Please fill all fields."
  const SurveyInvalidEmailText := "Please enter a valid email."
  const SurveyThanksText := "Thanks for your feedback! We've recorded your response."

  /** The colour `showMessage` and `showSurveyMessage` give each message type. */
  function MessageColor(kind: string): (c: string)
    ensures kind == "error" ==> c == "#ef4444"
    ensures kind == "success" ==> c == "#10b981"
    ensures kind != "error" && kind != "success" ==> c == "inherit"
  {
    if kind == "error" then "#ef4444" else if kind == "success" then "#10b981" else "inherit"
  }

  /** `showMessage(text, type)`: a no-op when the message element is missing. */
  method ShowMessage(box: Dom.Element?, m: Message)
    modifies box
    ensures box != null ==> box.text == m.text && !box.hidden && box.styles == old(box.styles)["color" := MessageColor(m.kind)]
    ensures box != null ==> box.classes == old(box.classes) && box.attrs == old(box.attrs)
  {
    if box == null {
      return;
    }
    box.text := m.text;
    box.hidden := false;
    box.styles := box.styles["color" := MessageColor(m.kind)];
  }

  /** Writing the colour twice leaves only the second write. */
  lemma ColorOverwritten(styles: map<string, string>, first: string, second: string)
    ensures styles["color" := first]["color" := second] == styles["color" := second]
  {
    assert styles["color" := first]["color" := second].Keys == styles["color" := second].Keys;
  }

  /** The message element shows the last message of a non-empty list. */
  ghost predicate Displays(box: Dom.Element?, shown: seq<Message>, oldStyles: map<string, string>)
    reads box
  {
    box != null && |shown| > 0 ==>
      box.text == shown[|shown| - 1].text && !box.hidden &&
      box.styles == oldStyles["color" := MessageColor(shown[|shown| - 1].kind)]
  }

  /**
   * The waitlist `submit` handler. An empty or invalid address shows one error
   * and leaves storage alone. Otherwise the record is appended when storage
   * allows it; a failure is swallowed, and "Submitting..." and the thanks are
   * shown either way. `now` is `Date.now()`.
   */
  method SubmitWaitlist(store: Storage.LocalStorage, box: Dom.Element?, rawEmail: string, role: string, now: int)
    returns (shown: seq<Message>)
    modifies store, box
    ensures var email := Trim(rawEmail);
      if !Email.IsValidEmail(email) then
        shown == [Message(InvalidEmailText, "error")] && store.lists == old(store.lists)
      else
        && shown == [Message(SubmittingText, "info"), Message(WaitlistThanksText, "success")]
        && var existing := old(store.ReadList(Storage.WaitlistKey));
           store.lists == if existing.Some? && store.writable
             then old(store.lists)[Storage.WaitlistKey := Storage.Records(existing.value + [Storage.Waitlist(email, role, now)])]
             else old(store.lists)
    ensures store.texts == old(store.texts) && store.readable == old(store.readable) && store.writable == old(store.writable)
    ensures box != null ==> Displays(box, shown, old(box.styles))
    ensures box != null ==> box.classes == old(box.classes) && box.attrs == old(box.attrs)
  {
    var email := Trim(rawEmail);
    if email == "" || !Email.IsValidEmail(email) {
      shown := [Message(InvalidEmailText, "error")];
      ShowMessage(box, shown[0]);
      return;
    }
    var _ := store.Append(Storage.WaitlistKey, Storage.Waitlist(email, role, now));
    var submitting, thanks := Message(SubmittingText, "info"), Message(WaitlistThanksText, "success");
    ShowMessage(box, submitting);
    ShowMessage(box, thanks);
    shown := [submitting, thanks];
    if box != null {
      ColorOverwritten(old(box.styles), MessageColor(submitting.kind), MessageColor(thanks.kind));
    }
  }

  /**
   * The survey `submit` handler. A missing field is reported before the address
   * is checked; an invalid address is reported next; in both cases nothing is
   * stored. Otherwise the record is appended when storage allows it, and the
   * thanks are shown either way.
   */
  method SubmitSurvey(store: Storage.LocalStorage, box: Dom.Element?,
                      rawName: string, rawEmail: string, role: string, rawFeedback: string, now: int)
    returns (shown: seq<Message>)
    modifies store, box
    ensures var name, email, feedback := Trim(rawName), Trim(rawEmail), Trim(rawFeedback);
      if name == "" || email == "" || role == "" || feedback == "" then
        shown == [Message(MissingFieldText, "error")] && store.lists == old(store.lists)
      else if !Email.IsValidEmail(email) then
        shown == [Message(SurveyInvalidEmailText, "error")] && store.lists == old(store.lists)
      else
        && shown == [Message(SurveyThanksText, "success")]
        && var existing := old(store.ReadList(Storage.SurveyKey));
           store.lists == if existing.Some? && store.writable
             then old(store.lists)[Storage.SurveyKey := Storage.Records(existing.value + [Storage.Survey(name, email, role, feedback, now)])]
             else old(store.lists)
    ensures store.texts == old(store.texts) && store.readable == old(store.readable) && store.writable == old(store.writable)
    ensures box != null ==> Displays(box, shown, old(box.styles))
    ensures box != null ==> box.classes == old(box.classes) && box.attrs == old(box.attrs)
  {
    var name, email, feedback := Trim(rawName), Trim(rawEmail), Trim(rawFeedback);
    if name == "" || email == "" || role == "" || feedback == "" {
      shown := [Message(MissingFieldText, "error")];
      ShowMessage(box, shown[0]);
      return;
    }
    if !Email.IsValidEmail(email) {
      shown := [Message(SurveyInvalidEmailText, "error")];
      ShowMessage(box, shown[0]);
      return;
    }
    var _ := store.Append(Storage.SurveyKey, Storage.Survey(name, email, role, feedback, now));
    shown := [Message(SurveyThanksText, "success")];
    ShowMessage(box, shown[0]);
  }

  /**
   * A valid address submitted while storage works grows the stored waitlist
   * by exactly one record, at its end, and leaves the earlier records alone.
   */
  method SignupAppendsOne(rawEmail: string, role: string, earlier: seq<Storage.Entry>, now: int)
    returns (before: seq<Storage.Entry>, after: seq<Storage.Entry>)
    requires Email.IsValidEmail(Trim(rawEmail))
    ensures before == earlier
    ensures |after| == |before| + 1 && after[..|before|] == before
    ensures after[|before|] == Storage.Waitlist(Trim(rawEmail), role, now)
  {
    var entry := Storage.Waitlist(Trim(rawEmail), role, now);
    var lists := map[Storage.WaitlistKey := Storage.Records(earlier)];
    var store := new Storage.LocalStorage(map[], lists, true, true);
    assert store.ReadList(Storage.WaitlistKey) == Some(earlier);
    before := Storage.Stored(lists, Storage.WaitlistKey);
    var _ := SubmitWaitlist(store, null, rawEmail, role, now);
    assert store.lists == lists[Storage.WaitlistKey := Storage.Records(earlier + [entry])];
    Storage.AppendGrowsByOne(lists, Storage.WaitlistKey, earlier, entry);
    after := Storage.Stored(store.lists, Storage.WaitlistKey);
  }

  const OpenClass := "open"
  const AriaExpanded := "aria-expanded"

  /** The mobile menu: registered only when both the hamburger and `#primary-nav` exist. */
  class MobileMenu {
    const hamburger: Dom.Element
    const nav: Dom.Element

    constructor (hamburger: Dom.Element, nav: Dom.Element)
      ensures this.hamburger == hamburger && this.nav == nav
    {
      this.hamburger, this.nav := hamburger, nav;
    }

    /** `aria-expanded` says whether the menu is open. */
    ghost predicate Consistent()
      reads hamburger, nav
    {
      AriaExpanded in hamburger.attrs && hamburger.attrs[AriaExpanded] == if OpenClass in nav.classes then "true" else "false"
    }

    /** A hamburger click toggles `open` and writes the new state to `aria-expanded`. */
    method OnHamburgerClick()
      modifies hamburger, nav
      ensures Consistent()
      ensures (OpenClass in nav.classes) == (OpenClass !in old(nav.classes))
      ensures nav.classes - {OpenClass} == old(nav.classes) - {OpenClass}
      ensures hamburger.attrs == old(hamburger.attrs)[AriaExpanded := if OpenClass in nav.classes then "true" else "false"]
      ensures hamburger != nav ==> hamburger.classes == old(hamburger.classes) && nav.attrs == old(nav.attrs)
      ensures nav.styles == old(nav.styles) && hamburger.styles == old(hamburger.styles)
      ensures nav.text == old(nav.text) && nav.hidden == old(nav.hidden) && hamburger.text == old(hamburger.text) && hamburger.hidden == old(hamburger.hidden)
    {
      var isOpen := OpenClass !in nav.classes;
      nav.classes := if isOpen then nav.classes + {OpenClass} else nav.classes - {OpenClass};
      hamburger.attrs := hamburger.attrs[AriaExpanded := if isOpen then "true" else "false"];
    }

    /** A click in the menu closes it when its target is a link element itself. */
    method OnNavClick(targetTag: string)
      modifies hamburger, nav
      ensures targetTag == "A" ==> Consistent() && OpenClass !in nav.classes && nav.classes == old(nav.classes) - {OpenClass}
      ensures targetTag == "A" ==> hamburger.attrs == old(hamburger.attrs)[AriaExpanded := "false"]
      ensures targetTag != "A" ==> nav.classes == old(nav.classes) && hamburger.attrs == old(hamburger.attrs)
      ensures hamburger != nav ==> hamburger.classes == old(hamburger.classes) && nav.attrs == old(nav.attrs)
      ensures nav.styles == old(nav.styles) && hamburger.styles == old(hamburger.styles)
      ensures nav.text == old(nav.text) && nav.hidden == old(nav.hidden) && hamburger.text == old(hamburger.text) && hamburger.hidden == old(hamburger.hidden)
    {
      if targetTag == "A" {
        nav.classes := nav.classes - {OpenClass};
        hamburger.attrs := hamburger.attrs[AriaExpanded := "false"];
      }
    }
  }

  const RevealVisible := "reveal-visible"
  const RevealDelayAttribute := "data-reveal-delay"
  /** How long a progress bar stays at 0% before its width is restored, in milliseconds. */
  const ProgressDelay := 200

  /** `setTimeout` treats a NaN or negative delay as 0. */
  function TimeoutDelay(d: Option<int>): (ms: nat)
    ensures d.Some? && d.value >= 0 ==> ms == d.value
    ensures d.None? || d.value < 0 ==> ms == 0
  {
    if d.Some? && d.value >= 0 then d.value else 0
  }

  /** `parseInt(el.getAttribute('data-reveal-delay') || '0', 10)`, as `setTimeout` uses it. */
  function RevealDelay(attrs: map<string, string>): (ms: nat)
    ensures RevealDelayAttribute !in attrs || attrs[RevealDelayAttribute] == "" ==> ms == 0
  {
    var raw := if RevealDelayAttribute in attrs && attrs[RevealDelayAttribute] != "" then attrs[RevealDelayAttribute] else "0";
    ParseZero();
    TimeoutDelay(ParseInt(raw))
  }

  /** A delay written as a numeral, optionally with a unit after it ("150ms"), is that many milliseconds. */
  lemma RevealDelayOfNumeral(attrs: map<string, string>, n: nat, unit: string)
    requires unit == [] || !IsDigit(unit[0])
    requires RevealDelayAttribute in attrs && attrs[RevealDelayAttribute] == NatToString(n) + unit
    ensures RevealDelay(attrs) == n
  {
    ParseIntOfNumeral(n, unit);
  }

  /** What a scheduled timer does to its target when it runs. */
  datatype Action = AddClass(name: string) | RestoreWidth(width: string)

  /** A `setTimeout` an observer callback scheduled: after `delay` milliseconds, `action` is applied to `target`. */
  datatype Timer = Timer(delay: nat, target: Dom.Element, action: Action)

  /**
   * No two entries of a batch name the same target. The browser can queue two
   * entries for one target before the callback runs; the progress callback is
   * modelled only for batches where it does not.
   */
  predicate DistinctTargets(entries: seq<Dom.ObserverEntry>) {
    forall j, k :: 0 <= j < k < |entries| ==> entries[j].target != entries[k].target
  }

  /** The timer the reveal callback schedules for an entry. */
  function RevealTimer(e: Dom.ObserverEntry): (t: Option<Timer>)
    reads e.target
    ensures t.Some? <==> e.isIntersecting
    ensures t.Some? ==> t.value == Timer(RevealDelay(e.target.attrs), e.target, AddClass(RevealVisible))
  {
    if e.isIntersecting then Some(Timer(RevealDelay(e.target.attrs), e.target, AddClass(RevealVisible))) else None
  }

  /**
   * The observer of the `[data-reveal]` elements: an element that comes into
   * view is unobserved at once and gets a timer that adds `reveal-visible`
   * after its `data-reveal-delay`. The callback does not touch the element itself.
   * `fired` holds the elements that have had their timer; none of them is observed.
   */
  class RevealObserver {
    var observed: set<Dom.Element>
    ghost var fired: set<Dom.Element>

    ghost predicate Valid()
      reads this
    {
      fired !! observed
    }

    /** `new IntersectionObserver(...)` followed by `io.observe(el)` for every item. */
    constructor (items: seq<Dom.Element>)
      ensures Valid() && fired == {}
      ensures observed == set el | el in items
    {
      observed := set el | el in items;
      fired := {};
    }

    /**
     * The callback: one timer per intersecting entry, in entry order (`timers[k]`
     * is entry `k`'s). The browser reports only observed targets, so an element
     * that has had its timer never gets another one.
     */
    method OnEntries(entries: seq<Dom.ObserverEntry>) returns (timers: seq<Option<Timer>>)
      requires Valid()
      requires forall k :: 0 <= k < |entries| ==> entries[k].target in observed
      modifies this
      ensures Valid()
      ensures observed == old(observed) - Dom.IntersectingTargets(entries)
      ensures fired == old(fired) + Dom.IntersectingTargets(entries)
      ensures |timers| == |entries|
      ensures forall k :: 0 <= k < |entries| ==>
        timers[k] == RevealTimer(entries[k])
      ensures forall k :: 0 <= k < |entries| && timers[k].Some? ==> entries[k].target !in old(fired)
    {
      timers := [];
      var i := 0;
      while i < |entries|
        invariant 0 <= i <= |entries| && |timers| == i
        invariant observed == old(observed) - Dom.IntersectingTargets(entries[..i])
        invariant fired == old(fired) + Dom.IntersectingTargets(entries[..i])
        invariant forall k :: 0 <= k < i ==>
          timers[k] == RevealTimer(entries[k])
      {
        var entry := entries[i];
        Dom.IntersectingTargetsSnoc(entries, i);
        if entry.isIntersecting {
          var el := entry.target;
          var delay := RevealDelay(el.attrs);
          timers := timers + [Some(Timer(delay, el, AddClass(RevealVisible)))];
          observed := observed - {el};
          fired := fired + {el};
        } else {
          timers := timers + [None];
        }
        i := i + 1;
      }
      assert entries[..i] == entries;
    }
  }

  /** The timer the progress callback schedules for an entry, given its target's styles beforehand. */
  function ProgressTimer(e: Dom.ObserverEntry, styles: map<string, string>): (t: Option<Timer>)
    ensures t.Some? <==> e.isIntersecting
    ensures t.Some? ==> t.value.delay == ProgressDelay && t.value.target == e.target
    ensures t.Some? ==> t.value.action == RestoreWidth(Dom.StyleValue(styles, "width"))
  {
    if e.isIntersecting then Some(Timer(ProgressDelay, e.target, RestoreWidth(Dom.StyleValue(styles, "width")))) else None
  }

  /** The target's styles after the progress callback has handled an entry: an intersecting bar drops to 0% width. */
  function Dropped(e: Dom.ObserverEntry, styles: map<string, string>): (r: map<string, string>)
    ensures e.isIntersecting ==> r.Keys == styles.Keys + {"width"} && r["width"] == "0%"
    ensures forall p :: p in styles && (p != "width" || !e.isIntersecting) ==> p in r && r[p] == styles[p]
    ensures !e.isIntersecting ==> r == styles
  {
    if e.isIntersecting then styles["width" := "0%"] else styles
  }

  /**
   * The observer of the `.progress-fill` bars: a bar that comes into view is
   * set to 0% width, unobserved, and gets a timer that writes back the width
   * it had, so the bar animates once. `fired` holds the bars that have had
   * their timer; none of them is observed.
   */
  class ProgressObserver {
    var observed: set<Dom.Element>
    ghost var fired: set<Dom.Element>

    ghost predicate Valid()
      reads this
    {
      fired !! observed
    }

    /** `new IntersectionObserver(...)` followed by `progressObserver.observe(bar)` for every bar. */
    constructor (bars: seq<Dom.Element>)
      ensures Valid() && fired == {}
      ensures observed == set b | b in bars
    {
      observed := set b | b in bars;
      fired := {};
    }

    /** One entry of the callback's `forEach`. */
    method OnEntry(entry: Dom.ObserverEntry) returns (timer: Option<Timer>)
      requires Valid()
      modifies this, entry.target`styles
      ensures Valid()
      ensures observed == old(observed) - if entry.isIntersecting then {entry.target} else {}
      ensures fired == old(fired) + if entry.isIntersecting then {entry.target} else {}
      ensures timer == ProgressTimer(entry, old(entry.target.styles))
      ensures entry.target.styles == Dropped(entry, old(entry.target.styles))
      ensures entry.target.attrs == old(entry.target.attrs) && entry.target.classes == old(entry.target.classes)
    {
      if entry.isIntersecting {
        var bar := entry.target;
        var width := Dom.StyleValue(bar.styles, "width");
        bar.styles := bar.styles["width" := "0%"];
        timer := Some(Timer(ProgressDelay, bar, RestoreWidth(width)));
        observed := observed - {bar};
        fired := fired + {bar};
      } else {
        timer := None;
      }
    }

    /**
     * The callback: every intersecting bar drops to 0% and gets a timer restoring
     * its earlier width. The browser reports only observed bars, so a bar that
     * has had its timer never gets another one.
     */
    method OnEntries(entries: seq<Dom.ObserverEntry>) returns (timers: seq<Option<Timer>>)
      requires Valid() && DistinctTargets(entries)
      requires forall k :: 0 <= k < |entries| ==> entries[k].target in observed
      modifies this, (set e | e in entries :: e.target)`styles
      ensures Valid()
      ensures observed == old(observed) - Dom.IntersectingTargets(entries)
      ensures fired == old(fired) + Dom.IntersectingTargets(entries)
      ensures |timers| == |entries|
      ensures forall k :: 0 <= k < |entries| ==>
        timers[k] == ProgressTimer(entries[k], old(entries[k].target.styles))
      ensures forall k :: 0 <= k < |entries| && timers[k].Some? ==> entries[k].target !in old(fired)
      ensures forall k :: 0 <= k < |entries| ==>
        entries[k].target.styles == Dropped(entries[k], old(entries[k].target.styles))
      ensures forall k :: 0 <= k < |entries| ==>
        entries[k].target.attrs == old(entries[k].target.attrs) && entries[k].target.classes == old(entries[k].target.classes)
    {
      timers := [];
      var i := 0;
      while i < |entries|
        invariant 0 <= i <= |entries| && |timers| == i
        invariant Valid()
        invariant observed == old(observed) - Dom.IntersectingTargets(entries[..i])
        invariant fired == old(fired) + Dom.IntersectingTargets(entries[..i])
        invariant forall k :: 0 <= k < i ==>
          timers[k] == ProgressTimer(entries[k], old(entries[k].target.styles))
        invariant forall k :: 0 <= k < |entries| ==>
          entries[k].target.styles == (if k < i then Dropped(entries[k], old(entries[k].target.styles)) else old(entries[k].target.styles))
      {
        var entry := entries[i];
        Dom.IntersectingTargetsSnoc(entries, i);
        var timer := OnEntry(entry);
        timers := timers + [timer];
        i := i + 1;
      }
      assert entries[..i] == entries;
    }
  }

  /** A timer runs: the reveal class is added, or the saved width is written back; nothing else changes. */
  method Fire(t: Timer)
    modifies t.target`classes, t.target`styles
    ensures t.target.attrs == old(t.target.attrs)
    ensures match t.action
      case AddClass(c) => t.target.classes == old(t.target.classes) + {c} && t.target.styles == old(t.target.styles)
      case RestoreWidth(w) => t.target.styles == old(t.target.styles)["width" := w] && t.target.classes == old(t.target.classes)
  {
    match t.action {
      case AddClass(c) => t.target.classes := t.target.classes + {c};
      case RestoreWidth(w) => t.target.styles := t.target.styles["width" := w];
    }
  }

  /**
   * A progress bar that comes into view drops to 0%, stops being observed
   * and, when its timer runs, gets back the width it had.
   */
  method ProgressBarReplay(width: string) returns (during: string, stillObserved: bool, after: string)
    ensures during == "0%" && !stillObserved && after == width
  {
    var bar := new Dom.Element();
    bar.styles := map["width" := width];
    var observer := new ProgressObserver([bar]);
    var batch := [Dom.ObserverEntry(bar, true)];
    assert batch[..0] == [] && batch[..|batch| - 1] == [];
    var timers := observer.OnEntries(batch);
    during := Dom.StyleValue(bar.styles, "width");
    stillObserved := bar in observer.observed;
    assert timers[0] == Some(Timer(ProgressDelay, bar, RestoreWidth(width)));
    Fire(timers[0].value);
    after := Dom.StyleValue(bar.styles, "width");
  }

  /**
   * A reveal element with `data-reveal-delay` set to a numeral gets a timer of
   * that many milliseconds, is unobserved at once, and has `reveal-visible`
   * once the timer runs.
   */
  method RevealOnce(n: nat) returns (delay: nat, stillObserved: bool, revealed: bool)
    ensures delay == n && !stillObserved && revealed
  {
    var el := new Dom.Element();
    el.attrs := map[RevealDelayAttribute := NatToString(n)];
    RevealDelayOfNumeral(el.attrs, n, "");
    assert NatToString(n) + "" == NatToString(n);
    var observer := new RevealObserver([el]);
    var batch := [Dom.ObserverEntry(el, true)];
    assert batch[..0] == [] && batch[..|batch| - 1] == [];
    var timers := observer.OnEntries(batch);
    var timer := timers[0].value;
    delay := timer.delay;
    stillObserved := el in observer.observed;
    Fire(timer);
    revealed := RevealVisible in el.classes;
  }
}
