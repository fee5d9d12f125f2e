/**
 The slide navigator as a pure state machine.

 The browser script keeps two globals, the current slide index and an
 animation lock, and moves between slides with `goToSlide`, which hides
 the current slide, sets the index at once and schedules two nested timer
 callbacks: after a short delay a "reveal" callback shows the new slide and
 redraws the navigation controls, and after a second delay an "unlock"
 callback clears the lock. Here those callbacks are explicit pending steps
 (`Phase`), fired one at a time by the `TimerFires` event, so the timing
 logic is stated without a clock.

 Which slide elements exist in the document is a parameter, `slides`: the
 set of indices `i` for which an element `slide-i` is present.
 */
module Navigation {

  /** The fixed number of slides of the deck. */
  const TotalSlides: int := 16

  /** What a user gesture or the public API asks the navigator to do. */
  datatype Command = Next | Previous | GoTo(index: int)

  /** The pending timer callback of a transition, if any. */
  datatype Phase =
    | Idle                        // no callback scheduled
    | PendingReveal(target: int)  // the first callback: show slide `target`
    | PendingUnlock               // the second callback: release the lock

  /**
   The navigator's state: the current index, the animation lock, the pending
   callback and the set of slides that carry the "active" (visible) marker.
   */
  datatype NavState = NavState(current: int, animating: bool, phase: Phase, active: set<int>)

  /** Everything that can happen to the navigator. */
  datatype Event =
    | Request(cmd: Command)  // a button, dot, key, swipe or API call
    | AutoTick               // one tick of the auto-advance interval
    | TimerFires             // the pending transition callback runs

  /** The state after loading: index 0, unlocked, and slide 0 shown if it exists. */
  function Initial(slides: set<int>): (r: NavState)
    ensures r.current == 0 && !r.animating && r.phase == Idle
    ensures r.active <= {0} && (0 in r.active <==> 0 in slides)
  {
    NavState(0, false, Idle, if 0 in slides then {0} else {})
  }

  /**
   `goToSlide`: ignored while locked or when the target is already current.
   Otherwise the lock is taken, the current slide loses its marker, the index
   is set immediately, and the reveal step is scheduled only when the target
   slide exists; when it does not, nothing will ever release the lock.
   */
  function GoToSlide(slides: set<int>, s: NavState, i: int): (r: NavState)
    ensures s.animating || i == s.current ==> r == s
    ensures !s.animating && i != s.current ==>
              && r.current == i
              && r.animating
              && (r.phase == PendingReveal(i) <==> i in slides)
              && (r.phase == Idle <==> i !in slides)
              && r.active == (if s.current in slides then s.active - {s.current} else s.active)
  {
    if s.animating || i == s.current then s
    else
      var hidden := if s.current in slides then s.active - {s.current} else s.active;
      NavState(i, true, if i in slides then PendingReveal(i) else Idle, hidden)
  }

  /**
   `nextSlide`: ignored while locked or at the last slide (no wraparound);
   otherwise a transition to the following slide.
   */
  function NextSlide(slides: set<int>, s: NavState): (r: NavState)
    ensures s.animating || s.current >= TotalSlides - 1 ==> r == s
    ensures !s.animating && s.current < TotalSlides - 1 ==> r == GoToSlide(slides, s, s.current + 1)
    ensures r.current == s.current || r.current == s.current + 1
  {
    if s.animating then s
    else if s.current < TotalSlides - 1 then GoToSlide(slides, s, s.current + 1)
    else s
  }

  /**
   `previousSlide`: ignored while locked or at slide 0 (no wraparound);
   otherwise a transition to the preceding slide.
   */
  function PreviousSlide(slides: set<int>, s: NavState): (r: NavState)
    ensures s.animating || s.current <= 0 ==> r == s
    ensures !s.animating && s.current > 0 ==> r == GoToSlide(slides, s, s.current - 1)
    ensures r.current == s.current || r.current == s.current - 1
  {
    if s.animating then s
    else if s.current > 0 then GoToSlide(slides, s, s.current - 1)
    else s
  }

  /**
   One auto-advance tick: the next slide, or back to slide 0 from the last
   one. This is the only path that wraps around.
   */
  function AutoAdvance(slides: set<int>, s: NavState): (r: NavState)
    ensures s.current < TotalSlides - 1 ==> r == NextSlide(slides, s)
    ensures s.current >= TotalSlides - 1 ==> r == GoToSlide(slides, s, 0)
    ensures !s.animating && s.current == TotalSlides - 1 ==> r.current == 0 && r.animating
  {
    if s.current < TotalSlides - 1 then NextSlide(slides, s) else GoToSlide(slides, s, 0)
  }

  /**
   The pending callback runs: the reveal step marks its target active and
   schedules the unlock step; the unlock step releases the lock. With
   nothing pending, nothing happens. The index never changes here.
   */
  function Step(s: NavState): (r: NavState)
    ensures s.phase == Idle ==> r == s
    ensures s.phase.PendingReveal? ==>
              r == s.(phase := PendingUnlock, active := s.active + {s.phase.target})
    ensures s.phase == PendingUnlock ==> r == s.(phase := Idle, animating := false)
  {
    match s.phase
    case Idle => s
    case PendingReveal(t) => s.(phase := PendingUnlock, active := s.active + {t})
    case PendingUnlock => s.(phase := Idle, animating := false)
  }

  /**
   A command as the navigator carries it out. While locked it is ignored;
   from a valid index, a command that targets only valid indices leads to a
   valid index.
   */
  function Perform(slides: set<int>, s: NavState, c: Command): (r: NavState)
    ensures s.animating ==> r == s
    ensures InRange(s.current) && InRangeCommand(c) ==> InRange(r.current)
  {
    match c
    case Next => NextSlide(slides, s)
    case Previous => PreviousSlide(slides, s)
    case GoTo(i) => GoToSlide(slides, s, i)
  }

  /**
   One event. While the lock is held every request and tick is ignored;
   only the pending timer callback can change the state.
   */
  function Apply(slides: set<int>, s: NavState, e: Event): (r: NavState)
    ensures s.animating && !e.TimerFires? ==> r == s
    ensures e.TimerFires? ==> r == Step(s)
  {
    match e
    case Request(c) => Perform(slides, s, c)
    case AutoTick => AutoAdvance(slides, s)
    case TimerFires => Step(s)
  }

  /** A sequence of events, applied in order. */
  function Run(slides: set<int>, s: NavState, evs: seq<Event>): (r: NavState)
    decreases |evs|
  {
    if evs == [] then s else Run(slides, Apply(slides, s, evs[0]), evs[1..])
  }

  /** Running `a` and then `b` is running `a + b`. */
  lemma {:induction false} RunAppend(slides: set<int>, s: NavState, a: seq<Event>, b: seq<Event>)
    ensures Run(slides, s, a + b) == Run(slides, Run(slides, s, a), b)
    decreases |a|
  {
    if a == [] {
      assert a + b == b;
    } else {
      assert (a + b)[0] == a[0];
      assert (a + b)[1..] == a[1..] + b;
      RunAppend(slides, Apply(slides, s, a[0]), a[1..], b);
    }
  }

  /** The lock is held but no callback is pending: the navigator is frozen. */
  predicate Stuck(s: NavState)
  {
    s.animating && s.phase == Idle
  }

  /** A frozen navigator ignores every later event, whatever they are. */
  lemma {:induction false} StuckForever(slides: set<int>, s: NavState, evs: seq<Event>)
    requires Stuck(s)
    ensures Run(slides, s, evs) == s
    decreases |evs|
  {
    if evs != [] {
      assert Apply(slides, s, evs[0]) == s;
      StuckForever(slides, s, evs[1..]);
    }
  }

  /**
   Going to a slide that has no element still sets the index and takes the
   lock, but schedules nothing, so no later event ever changes the state.
   */
  lemma MissingSlideLocksForever(slides: set<int>, s: NavState, i: int, evs: seq<Event>)
    requires !s.animating && i != s.current && i !in slides
    ensures GoToSlide(slides, s, i).current == i
    ensures GoToSlide(slides, s, i).animating
    ensures Run(slides, GoToSlide(slides, s, i), evs) == GoToSlide(slides, s, i)
  {
    StuckForever(slides, GoToSlide(slides, s, i), evs);
  }

  /**
   A transition to an existing slide: the index is set and the lock taken at
   once; the first callback shows the target and leaves the lock held; only
   the second callback releases it.
   */
  lemma TransitionCompletes(slides: set<int>, s: NavState, i: int)
    requires !s.animating && i != s.current && i in slides
    ensures var t := Run(slides, s, [Request(GoTo(i))]);
      t.current == i && t.animating && t.phase == PendingReveal(i)
    ensures var t := Run(slides, s, [Request(GoTo(i)), TimerFires]);
      t.current == i && t.animating && t.phase == PendingUnlock && i in t.active
    ensures var t := Run(slides, s, [Request(GoTo(i)), TimerFires, TimerFires]);
      t.current == i && !t.animating && t.phase == Idle && i in t.active
  {
    var s1 := Apply(slides, s, Request(GoTo(i)));
    var s2 := Apply(slides, s1, TimerFires);
    var s3 := Apply(slides, s2, TimerFires);
    assert Run(slides, s1, []) == s1;
    assert Run(slides, s2, []) == s2;
    assert Run(slides, s3, []) == s3;
    assert [Request(GoTo(i)), TimerFires][1..] == [TimerFires];
    assert [Request(GoTo(i)), TimerFires, TimerFires][1..] == [TimerFires, TimerFires];
    assert [TimerFires, TimerFires][1..] == [TimerFires];
  }

  /**
   The invariant of every reachable state. When the lock is free nothing is
   pending and exactly the current slide (if it exists) is active; during
   the reveal wait no slide is active; during the unlock wait the current
   slide is the active one; a held lock with nothing pending means the
   current index names a missing slide.
   */
  predicate Inv(slides: set<int>, s: NavState)
  {
    match s.phase
    case Idle =>
      if s.animating then s.current !in slides && s.active == {}
      else s.active == (if s.current in slides then {s.current} else {})
    case PendingReveal(t) =>
      s.animating && t == s.current && t in slides && s.active == {}
    case PendingUnlock =>
      s.animating && s.current in slides && s.active == {s.current}
  }

  /** At most one slide is visible, and it is the current one. */
  lemma {:induction false} InvAtMostOneActive(slides: set<int>, s: NavState)
    requires Inv(slides, s)
    ensures s.active <= {s.current}
    ensures !s.animating ==> s.phase == Idle
  {
  }

  lemma InitialInv(slides: set<int>)
    ensures Inv(slides, Initial(slides))
  {
  }

  lemma GoToSlidePreservesInv(slides: set<int>, s: NavState, i: int)
    requires Inv(slides, s)
    ensures Inv(slides, GoToSlide(slides, s, i))
  {
  }

  /** Every event keeps the invariant. */
  lemma ApplyPreservesInv(slides: set<int>, s: NavState, e: Event)
    requires Inv(slides, s)
    ensures Inv(slides, Apply(slides, s, e))
  {
    match e
    case Request(c) => {
      match c
      case Next => if !s.animating && s.current < TotalSlides - 1 { GoToSlidePreservesInv(slides, s, s.current + 1); }
      case Previous => if !s.animating && s.current > 0 { GoToSlidePreservesInv(slides, s, s.current - 1); }
      case GoTo(i) => GoToSlidePreservesInv(slides, s, i);
    }
    case AutoTick =>
      if s.current < TotalSlides - 1 {
        if !s.animating { GoToSlidePreservesInv(slides, s, s.current + 1); }
      } else {
        GoToSlidePreservesInv(slides, s, 0);
      }
    case TimerFires =>
  }

  lemma {:induction false} RunPreservesInv(slides: set<int>, s: NavState, evs: seq<Event>)
    requires Inv(slides, s)
    ensures Inv(slides, Run(slides, s, evs))
    decreases |evs|
  {
    if evs != [] {
      ApplyPreservesInv(slides, s, evs[0]);
      RunPreservesInv(slides, Apply(slides, s, evs[0]), evs[1..]);
    }
  }

  /** From page load, whatever happens, at most the current slide is visible. */
  lemma ReachableAtMostOneActive(slides: set<int>, evs: seq<Event>)
    ensures Run(slides, Initial(slides), evs).active <= {Run(slides, Initial(slides), evs).current}
  {
    InitialInv(slides);
    RunPreservesInv(slides, Initial(slides), evs);
    InvAtMostOneActive(slides, Run(slides, Initial(slides), evs));
  }

  /** An index in [0, TotalSlides). */
  predicate InRange(i: int)
  {
    0 <= i < TotalSlides
  }

  /** Commands that target only valid indices. */
  predicate InRangeCommand(c: Command)
  {
    c.GoTo? ==> InRange(c.index)
  }

  predicate InRangeEvent(e: Event)
  {
    e.Request? ==> InRangeCommand(e.cmd)
  }

  /** A single in-range event keeps the index in range. */
  lemma ApplyStaysInRange(slides: set<int>, s: NavState, e: Event)
    requires InRange(s.current) && InRangeEvent(e)
    ensures InRange(Apply(slides, s, e).current)
  {
  }

  /**
   With only next, previous, ticks, timer callbacks and requests for valid
   indices, the current index stays in [0, TotalSlides).
   */
  lemma {:induction false} RunStaysInRange(slides: set<int>, s: NavState, evs: seq<Event>)
    requires InRange(s.current)
    requires forall k :: 0 <= k < |evs| ==> InRangeEvent(evs[k])
    ensures InRange(Run(slides, s, evs).current)
    decreases |evs|
  {
    if evs != [] {
      ApplyStaysInRange(slides, s, evs[0]);
      RunStaysInRange(slides, Apply(slides, s, evs[0]), evs[1..]);
    }
  }

  /** Every slide of the deck has an element. */
  predicate AllSlidesExist(slides: set<int>)
  {
    forall i :: 0 <= i < TotalSlides ==> i in slides
  }

  /**
   When every slide exists and only valid indices are requested, the lock is
   never stuck: after any history, two more timer callbacks release it.
   */
  lemma NeverStuckWhenAllSlidesExist(slides: set<int>, evs: seq<Event>)
    requires AllSlidesExist(slides)
    requires forall k :: 0 <= k < |evs| ==> InRangeEvent(evs[k])
    ensures !Stuck(Run(slides, Initial(slides), evs))
    ensures !Run(slides, Initial(slides), evs + [TimerFires, TimerFires]).animating
  {
    var s := Run(slides, Initial(slides), evs);
    InitialInv(slides);
    RunPreservesInv(slides, Initial(slides), evs);
    RunStaysInRange(slides, Initial(slides), evs);
    assert s.current in slides;
    RunAppend(slides, Initial(slides), evs, [TimerFires, TimerFires]);
    var s1 := Apply(slides, s, TimerFires);
    var s2 := Apply(slides, s1, TimerFires);
    assert Run(slides, s, [TimerFires, TimerFires]) == s2 by {
      assert [TimerFires, TimerFires][1..] == [TimerFires];
      assert Run(slides, s2, []) == s2;
    }
  }

  /** From page load with every slide present, going to slide 5 ends unlocked on slide 5. */
  lemma GoToFiveExample(slides: set<int>)
    requires AllSlidesExist(slides)
    ensures var t := Run(slides, Initial(slides), [Request(GoTo(5)), TimerFires, TimerFires]);
      t.current == 5 && !t.animating && t.active == {5}
  {
    TransitionCompletes(slides, Initial(slides), 5);
    InitialInv(slides);
    RunPreservesInv(slides, Initial(slides), [Request(GoTo(5)), TimerFires, TimerFires]);
  }

  /**
   From page load, asking for slide 20 (there are only 16) does not leave the
   index unchanged: it becomes 20, the lock is taken, and it stays so.
   */
  lemma GoToTwentyExample(slides: set<int>, later: seq<Event>)
    requires 20 !in slides
    ensures var t := Run(slides, Initial(slides), [Request(GoTo(20))]);
      t.current == 20 && t.animating && Run(slides, t, later) == t
  {
    var t := Apply(slides, Initial(slides), Request(GoTo(20)));
    assert Run(slides, Initial(slides), [Request(GoTo(20))]) == t by {
      assert Run(slides, t, []) == t;
    }
    MissingSlideLocksForever(slides, Initial(slides), 20, later);
  }
}
