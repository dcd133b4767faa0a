/**
 * The drag-to-merge hero of components/about/HeroAbout.tsx: dropping the
 * draggable token close enough to the drop zone merges them, and a fixed
 * timer schedule then moves the remaining view flags forward one by one.
 * Timers are an ordered list of (delay, flag) pairs; the clock is not modelled.
 */
module Hero {
  import opened Wrappers

  /** A `getBoundingClientRect()` result. */
  datatype Rect = Rect(left: real, top: real, width: real, height: real)

  /** Both centres must be closer than this, in pixels, on each axis. */
  const Threshold: real := 60.0

  /** The horizontal centre: as far from the left edge as from the right one. */
  function CenterX(r: Rect): (c: real)
    ensures c - r.left == (r.left + r.width) - c
  {
    r.left + r.width / 2.0
  }

  /** The vertical centre: as far from the top edge as from the bottom one. */
  function CenterY(r: Rect): (c: real)
    ensures c - r.top == (r.top + r.height) - c
  {
    r.top + r.height / 2.0
  }

  function Abs(x: real): (a: real)
    ensures a >= 0.0 && (a == x || a == -x)
  {
    if x < 0.0 then -x else x
  }

  /** The merge test of `handleDragEnd`: the two centres are strictly within the threshold on both axes. */
  function Merges(dropZone: Rect, token: Rect): (b: bool)
    ensures b <==>
      && -Threshold < CenterX(dropZone) - CenterX(token) < Threshold
      && -Threshold < CenterY(dropZone) - CenterY(token) < Threshold
  {
    Abs(CenterX(dropZone) - CenterX(token)) < Threshold && Abs(CenterY(dropZone) - CenterY(token)) < Threshold
  }

  /** Which rectangle is the drop zone does not matter. */
  lemma MergeIsSymmetric(a: Rect, b: Rect)
    ensures Merges(a, b) == Merges(b, a)
  {
  }

  /** A distance of exactly the threshold on either axis is a miss. */
  lemma ThresholdIsExclusive(dropZone: Rect, token: Rect)
    requires Abs(CenterX(dropZone) - CenterX(token)) == Threshold || Abs(CenterY(dropZone) - CenterY(token)) == Threshold
    ensures !Merges(dropZone, token)
  {
  }

  /** Two drops of 96-pixel squares: centres 40 and 30 pixels apart merge, 100 and 150 pixels apart do not. */
  lemma DropExamples()
    ensures Merges(Rect(52.0, 52.0, 96.0, 96.0), Rect(92.0, 82.0, 96.0, 96.0))
    ensures !Merges(Rect(52.0, 52.0, 96.0, 96.0), Rect(152.0, 202.0, 96.0, 96.0))
  {
  }

  /** The four flags the timers set; `isMerged` is set at once. */
  datatype Flag = PiecesMoving | PiecesFading | ShowSimpleMessage | ShowDescription

  /** The order in which the timers are scheduled. */
  const FlagOrder: seq<Flag> := [PiecesMoving, PiecesFading, ShowSimpleMessage, ShowDescription]

  /** A pending `setTimeout(() => setFlag(true), delay)`. */
  datatype Timer = Timer(delay: nat, flag: Flag)

  /** The five `useState` flags. */
  datatype Flags = Flags(
    isMerged: bool, piecesMoving: bool, piecesFading: bool, showSimpleMessage: bool, showDescription: bool)

  const Unmerged := Flags(false, false, false, false, false)

  /** The timers a merge schedules, in the order they are created. */
  function MergeSchedule(reducedMotion: bool): (s: seq<Timer>)
    ensures |s| == 4 && forall k :: 0 <= k < 4 ==> s[k].flag == FlagOrder[k]
    ensures reducedMotion ==> forall k :: 0 <= k < 4 ==> s[k].delay == 0
    ensures !reducedMotion ==> forall k :: 0 < k < 4 ==> s[k - 1].delay < s[k].delay
  {
    if reducedMotion then
      [Timer(0, PiecesMoving), Timer(0, PiecesFading), Timer(0, ShowSimpleMessage), Timer(0, ShowDescription)]
    else
      [Timer(200, PiecesMoving), Timer(1000, PiecesFading), Timer(1500, ShowSimpleMessage), Timer(2200, ShowDescription)]
  }

  /**
   * All timers start at the same moment and none has a shorter delay than one
   * created before it, so they fire in list order (equal delays fire in the
   * order they were created).
   */
  lemma ScheduleFiresInOrder(reducedMotion: bool, j: nat, k: nat)
    requires j < k < 4
    ensures MergeSchedule(reducedMotion)[j].delay <= MergeSchedule(reducedMotion)[k].delay
  {
    var s := MergeSchedule(reducedMotion);
    if !reducedMotion {
      assert s[0].delay < s[1].delay < s[2].delay < s[3].delay;
    }
  }

  predicate IsSet(f: Flags, flag: Flag) {
    match flag
    case PiecesMoving => f.piecesMoving
    case PiecesFading => f.piecesFading
    case ShowSimpleMessage => f.showSimpleMessage
    case ShowDescription => f.showDescription
  }

  /** Every flag set in `a` is set in `b`. */
  predicate Below(a: Flags, b: Flags) {
    && (a.isMerged ==> b.isMerged)
    && (a.piecesMoving ==> b.piecesMoving)
    && (a.piecesFading ==> b.piecesFading)
    && (a.showSimpleMessage ==> b.showSimpleMessage)
    && (a.showDescription ==> b.showDescription)
  }

  /** A timer's callback: its flag becomes true, and nothing else changes. */
  function SetFlag(f: Flags, flag: Flag): (g: Flags)
    ensures IsSet(g, flag) && Below(f, g)
    ensures g.isMerged == f.isMerged
    ensures forall other :: other != flag ==> IsSet(g, other) == IsSet(f, other)
  {
    match flag
    case PiecesMoving => f.(piecesMoving := true)
    case PiecesFading => f.(piecesFading := true)
    case ShowSimpleMessage => f.(showSimpleMessage := true)
    case ShowDescription => f.(showDescription := true)
  }

  /** The flags once merged and once the first `k` timers have fired. */
  function Phase(k: nat): (f: Flags)
    requires k <= 4
    ensures f.isMerged
  {
    if k == 0 then Unmerged.(isMerged := true) else SetFlag(Phase(k - 1), FlagOrder[k - 1])
  }

  /** The phases are the linear progression Merged, Moving, Fading, Message, Description. */
  lemma {:induction false} PhaseFlags(k: nat)
    requires k <= 4
    ensures Phase(k) == Flags(true, k >= 1, k >= 2, k >= 3, k >= 4)
  {
    if k > 0 {
      PhaseFlags(k - 1);
    }
  }

  /** Phases only move forward. */
  lemma PhasesMoveForward(j: nat, k: nat)
    requires j <= k <= 4
    ensures Below(Phase(j), Phase(k))
  {
    PhaseFlags(j);
    PhaseFlags(k);
  }

  /** The draggable token is rendered only while not merged (line 232). */
  predicate TokenRendered(f: Flags) { !f.isMerged }

  /** The puzzle zone is displayed until the pieces fade. */
  predicate PuzzleZoneDisplayed(f: Flags) { !f.piecesFading }

  /** The centre image sits in the drop zone between the merge and the fade. */
  predicate CentreImageRendered(f: Flags) { f.isMerged && !f.piecesFading }

  /** "It's that simple." needs both `piecesFading` (its container) and `showSimpleMessage`. */
  predicate SimpleMessageRendered(f: Flags) { f.piecesFading && f.showSimpleMessage }

  /** The description needs both `piecesFading` (its container) and `showDescription`. */
  predicate DescriptionRendered(f: Flags) { f.piecesFading && f.showDescription }

  /** What each phase shows. */
  lemma PhaseRendering(k: nat)
    requires k <= 4
    ensures !TokenRendered(Phase(k))
    ensures PuzzleZoneDisplayed(Phase(k)) <==> k < 2
    ensures CentreImageRendered(Phase(k)) <==> k < 2
    ensures SimpleMessageRendered(Phase(k)) <==> k >= 3
    ensures DescriptionRendered(Phase(k)) <==> k == 4
  {
    PhaseFlags(k);
  }

  class HeroAbout {
    var isMerged: bool
    var piecesMoving: bool
    var piecesFading: bool
    var showSimpleMessage: bool
    var showDescription: bool
    /** Timers scheduled and not yet fired, in firing order. */
    var pending: seq<Timer>
    /** `useReducedMotion()`. */
    const prefersReducedMotion: bool

    function State(): Flags
      reads this
    {
      Flags(isMerged, piecesMoving, piecesFading, showSimpleMessage, showDescription)
    }

    /**
     * Either nothing has happened yet, or the hero is in one of the five merged
     * phases and the pending timers are exactly the rest of the schedule.
     */
    ghost predicate Valid()
      reads this
    {
      || (State() == Unmerged && pending == [])
      || (|pending| <= 4 && pending == MergeSchedule(prefersReducedMotion)[4 - |pending|..] && State() == Phase(4 - |pending|))
    }

    constructor (prefersReducedMotion: bool)
      ensures Valid() && State() == Unmerged && pending == []
      ensures this.prefersReducedMotion == prefersReducedMotion
    {
      isMerged, piecesMoving, piecesFading, showSimpleMessage, showDescription := false, false, false, false, false;
      pending := [];
      this.prefersReducedMotion := prefersReducedMotion;
    }

    /**
     * `handleDragEnd`. The token's ref is set exactly while the token is
     * rendered, i.e. while not merged; the drop zone's ref is an input. A
     * missing ref or a miss changes nothing, so the user can drag again; a
     * hit sets `isMerged` at once and schedules the four timers.
     */
    method HandleDragEnd(dropZone: Option<Rect>, token: Rect)
      requires Valid()
      modifies this
      ensures Valid() && Below(old(State()), State())
      ensures var tokenRef := if old(isMerged) then None else Some(token);
        if dropZone.Some? && tokenRef.Some? && Merges(dropZone.value, tokenRef.value) then
          State() == old(State()).(isMerged := true) && pending == old(pending) + MergeSchedule(prefersReducedMotion)
        else
          State() == old(State()) && pending == old(pending)
    {
      var tokenRef := if isMerged then None else Some(token);
      if dropZone.None? || tokenRef.None? {
        return;
      }
      var dx := Abs(CenterX(dropZone.value) - CenterX(tokenRef.value));
      var dy := Abs(CenterY(dropZone.value) - CenterY(tokenRef.value));
      if dx < Threshold && dy < Threshold {
        isMerged := true;
        pending := pending + MergeSchedule(prefersReducedMotion);
        assert pending == MergeSchedule(prefersReducedMotion)[0..];
      }
    }

    /** A timer's callback, e.g. `setPiecesMoving(true)`: its flag becomes true and nothing else changes. */
    method SetTrue(flag: Flag)
      modifies this
      ensures State() == SetFlag(old(State()), flag)
      ensures pending == old(pending)
    {
      match flag {
        case PiecesMoving => piecesMoving := true;
        case PiecesFading => piecesFading := true;
        case ShowSimpleMessage => showSimpleMessage := true;
        case ShowDescription => showDescription := true;
      }
    }

    /** The next timer fires: its flag becomes true. */
    method FireNextTimer()
      requires Valid() && pending != []
      modifies this
      ensures Valid() && Below(old(State()), State())
      ensures State() == SetFlag(old(State()), old(pending[0].flag))
      ensures pending == old(pending[1..])
    {
      var t := pending[0];
      ghost var k := 4 - |pending|;
      ghost var schedule := MergeSchedule(prefersReducedMotion);
      assert t == schedule[k] && t.flag == FlagOrder[k];
      SetTrue(t.flag);
      assert State() == Phase(k + 1);
      pending := pending[1..];
      assert pending == schedule[k + 1..];
    }
  }

  /** A hit followed by every timer: all five flags end up set and only the closing text shows. */
  method MergeExample(prefersReducedMotion: bool) returns (f: Flags)
    ensures f == Flags(true, true, true, true, true)
    ensures SimpleMessageRendered(f) && DescriptionRendered(f) && !TokenRendered(f) && !PuzzleZoneDisplayed(f)
  {
    var hero := new HeroAbout(prefersReducedMotion);
    DropExamples();
    hero.HandleDragEnd(Some(Rect(52.0, 52.0, 96.0, 96.0)), Rect(92.0, 82.0, 96.0, 96.0));
    hero.FireNextTimer();
    hero.FireNextTimer();
    hero.FireNextTimer();
    hero.FireNextTimer();
    PhaseFlags(4);
    f := hero.State();
  }
}
