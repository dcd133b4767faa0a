/**
 * `FloatingNav` from components/floating-navbar.js: shows the fixed navbar near
 * the top of the page and when scrolling up, hides it when scrolling down, and
 * samples the scroll position at most once per animation frame.
 */
module Navbar {
  import opened Wrappers
  import Dom

  const VisibleClass := "floating-nav-visible"
  const HiddenClass := "floating-nav-hidden"
  const BaseClass := "floating-nav"
  /** `this.scrollThreshold`: the fraction of the scrollable height that counts as "near the top". */
  const ScrollThreshold: real := 0.05
  /** The absolute offset, in pixels, that counts as "near the top". */
  const TopOffset := 50

  /**
   * The frame callback's `scrollHeight > 0 ? currentScrollY / scrollHeight : 0`,
   * where `scrollHeight` is the document height minus the viewport height.
   */
  function ScrollProgress(scrollY: nat, scrollHeight: int): (p: real)
    ensures scrollHeight <= 0 ==> p == 0.0
    ensures scrollHeight > 0 ==> p * scrollHeight as real == scrollY as real && p >= 0.0
  {
    if scrollHeight > 0 then scrollY as real / scrollHeight as real else 0.0
  }

  /**
   * The unguarded quotient `init()` passes. `None` stands for the values every
   * comparison rejects: `0 / 0` is NaN and a positive offset over 0 is Infinity.
   */
  function InitialProgress(scrollY: nat, scrollHeight: int): (p: Option<real>)
    ensures p.None? <==> scrollHeight == 0
    ensures p.Some? ==> p.value * scrollHeight as real == scrollY as real
  {
    if scrollHeight == 0 then None else Some(scrollY as real / scrollHeight as real)
  }

  /**
   * The "near the top" test `scrollProgress < 0.05 || currentScrollY < 50`, where
   * `None` is a progress or a position (`undefined`) that compares false.
   */
  predicate NearTop(progress: Option<real>, scrollY: Option<int>): (near: bool)
    ensures scrollY.Some? && scrollY.value < TopOffset ==> near
    ensures progress.None? && scrollY.None? ==> !near
    ensures (progress.None? || progress.value >= ScrollThreshold) && (scrollY.None? || scrollY.value >= TopOffset) ==> !near
  {
    (progress.Some? && progress.value < ScrollThreshold) || (scrollY.Some? && scrollY.value < TopOffset)
  }

  /** The new `visible` after `updateVisibility`. */
  function NextVisible(visible: bool, lastScrollY: int, progress: Option<real>, scrollY: Option<int>): (v: bool)
    ensures NearTop(progress, scrollY) ==> v
    ensures !NearTop(progress, scrollY) && scrollY.Some? && scrollY.value < lastScrollY ==> v
    ensures !NearTop(progress, scrollY) && scrollY.Some? && scrollY.value > lastScrollY ==> !v
    ensures !NearTop(progress, scrollY) && (scrollY.None? || scrollY.value == lastScrollY) ==> v == visible
  {
    if NearTop(progress, scrollY) then true
    else if scrollY.None? then visible  // `undefined - lastScrollY` is NaN: neither branch runs
    else
      var delta := scrollY.value - lastScrollY;
      if delta < 0 then true else if delta > 0 then false else visible
  }

  /** The class-list update: exactly one of the two state classes, the one matching `visible`; other classes stay. */
  function ApplyVisibility(classes: set<string>, visible: bool): (r: set<string>)
    ensures VisibleClass in r <==> visible
    ensures HiddenClass in r <==> !visible
    ensures r - {VisibleClass, HiddenClass} == classes - {VisibleClass, HiddenClass}
  {
    if visible then classes + {VisibleClass} - {HiddenClass} else classes + {HiddenClass} - {VisibleClass}
  }

  /** Position 30 is near the top, so the bar shows; scrolling down from 500 to 520, away from the top, hides it. */
  lemma ScrollExamples(progress: real)
    requires progress >= ScrollThreshold
    ensures NextVisible(true, 40, Some(progress), Some(30))
    ensures !NextVisible(true, 500, Some(progress), Some(520))
  {
  }

  class FloatingNav {
    var visible: bool
    var lastScrollY: int
    /** The `ticking` variable of `attachEventListeners`' closure. */
    var ticking: bool
    /** Frame callbacks requested and not yet run. */
    var pendingFrames: nat
    /** Whether `#floating-nav` is in the document; `destroy()` removes it. */
    var attached: bool
    const navbar: Dom.Element

    /** At most one frame callback is pending, and exactly while `ticking` is set. */
    ghost predicate Valid()
      reads this
    {
      pendingFrames == if ticking then 1 else 0
    }

    /**
     * The constructor with `init()`: starts visible, renders the bar, registers
     * the scroll listener, calls it once, then applies the initial quotient
     * with no scroll position.
     */
    constructor (scrollY: nat, scrollHeight: int)
      ensures Valid() && attached && fresh(navbar)
      ensures visible && lastScrollY == scrollY
      ensures ticking && pendingFrames == 1
      ensures navbar.classes == {BaseClass, VisibleClass}
    {
      visible := true;
      lastScrollY := scrollY;
      ticking := false;
      pendingFrames := 0;
      attached := true;
      var bar := new Dom.Element();
      bar.classes := {BaseClass};
      navbar := bar;
      new;
      OnScroll();
      UpdateVisibility(InitialProgress(scrollY, scrollHeight), None);
    }

    /** `handleScroll`: requests a frame only when none is pending. */
    method OnScroll()
      requires Valid()
      modifies this
      ensures Valid() && ticking
      ensures pendingFrames == 1
      ensures old(ticking) ==> pendingFrames == old(pendingFrames)
      ensures visible == old(visible) && lastScrollY == old(lastScrollY) && attached == old(attached)
    {
      if !ticking {
        pendingFrames := pendingFrames + 1;
        ticking := true;
      }
    }

    /** The frame callback: samples the position, updates visibility, then records the position and clears `ticking`. */
    method RunFrame(scrollY: nat, scrollHeight: int)
      requires Valid() && pendingFrames > 0
      modifies this, navbar`classes
      ensures Valid() && !ticking && pendingFrames == 0
      ensures lastScrollY == scrollY
      ensures attached == old(attached)
      ensures visible == if attached
        then NextVisible(old(visible), old(lastScrollY), Some(ScrollProgress(scrollY, scrollHeight)), Some(scrollY))
        else old(visible)
      ensures navbar.classes == if attached then ApplyVisibility(old(navbar.classes), visible) else old(navbar.classes)
    {
      pendingFrames := pendingFrames - 1;
      var progress := ScrollProgress(scrollY, scrollHeight);
      UpdateVisibility(Some(progress), Some(scrollY));
      lastScrollY := scrollY;
      ticking := false;
    }

    /** `updateVisibility`: a no-op when the bar is not in the document. */
    method UpdateVisibility(progress: Option<real>, scrollY: Option<int>)
      modifies this`visible, navbar`classes
      ensures !attached ==> visible == old(visible) && navbar.classes == old(navbar.classes)
      ensures attached ==> visible == NextVisible(old(visible), lastScrollY, progress, scrollY)
      ensures attached ==> navbar.classes == ApplyVisibility(old(navbar.classes), visible)
    {
      if !attached {
        return;
      }
      visible := NextVisible(visible, lastScrollY, progress, scrollY);
      navbar.classes := ApplyVisibility(navbar.classes, visible);
    }

    /** `destroy()`: removes the bar; the scroll listener stays registered. */
    method Destroy()
      modifies this
      ensures !attached
      ensures visible == old(visible) && lastScrollY == old(lastScrollY)
      ensures ticking == old(ticking) && pendingFrames == old(pendingFrames)
    {
      attached := false;
    }
  }
}
