/**
 The navigator as the browser script runs it: the globals become the fields
 of one object, the dots a fixed array of "active" flags, and the prev and
 next buttons two opacity values. Each method's new state is the pure
 transition of module Navigation applied to the old state, so everything
 proved there holds of the object.
 */
module NavigatorClass {
  import opened Navigation
  import Input

  const Dimmed: real := 0.5
  const Opaque: real := 1.0

  class Navigator {
    /** The indices whose slide element exists. */
    const slides: set<int>
    /** The dots, one "active" flag per dot element. */
    const dots: array<bool>
    var current: int
    var animating: bool
    var phase: Phase
    var active: set<int>
    var prevOpacity: real
    var nextOpacity: real

    function State(): (s: NavState)
      reads this
    {
      NavState(current, animating, phase, active)
    }

    ghost predicate Valid()
      reads this
    {
      Inv(slides, State())
    }

    /** The dots and buttons are drawn for slide `i`. */
    ghost predicate ControlsShow(i: int)
      reads this, dots
    {
      && (forall k :: 0 <= k < dots.Length ==> dots[k] == (k == i))
      && prevOpacity == (if i == 0 then Dimmed else Opaque)
      && nextOpacity == (if i == TotalSlides - 1 then Dimmed else Opaque)
    }

    /**
     Page load: index 0, lock free, then slide 0 is shown (and the controls
     drawn) if its element exists. The dots start without the marker.
     */
    constructor (slides: set<int>, dotCount: nat)
      ensures this.slides == slides && fresh(dots) && dots.Length == dotCount
      ensures Valid() && State() == Initial(slides)
      ensures 0 in slides ==> ControlsShow(0)
    {
      this.slides := slides;
      dots := new bool[dotCount](_ => false);
      current, animating, phase, active := 0, false, Idle, {};
      prevOpacity, nextOpacity := Opaque, Opaque;
      new;
      ShowSlide(0);
    }

    /** Redraw the controls: only dot `current` active, ends dimmed. */
    method UpdateNavigation()
      modifies dots, this`prevOpacity, this`nextOpacity
      ensures ControlsShow(current)
    {
      for k := 0 to dots.Length
        invariant forall j :: 0 <= j < k ==> dots[j] == (j == current)
      {
        dots[k] := k == current;
      }
      prevOpacity := if current == 0 then Dimmed else Opaque;
      nextOpacity := if current == TotalSlides - 1 then Dimmed else Opaque;
    }

    /**
     The load-time button callback of the entrance animations: it sets the
     prev button dimmed and the next button opaque whatever the current
     slide is. Only when the current slide is 0 does this agree with the
     controls drawn by `UpdateNavigation`.
     */
    method RestoreButtonOpacity()
      modifies this`prevOpacity, this`nextOpacity
      ensures prevOpacity == Dimmed && nextOpacity == Opaque
      ensures current == 0 && old(ControlsShow(0)) ==> ControlsShow(0)
      ensures current != 0 ==> !ControlsShow(current)
    {
      prevOpacity, nextOpacity := Dimmed, Opaque;
    }

    /** Show slide `i` without a transition, if its element exists. */
    method ShowSlide(i: int)
      modifies dots, this`active, this`prevOpacity, this`nextOpacity
      ensures active == if i in slides then old(active) + {i} else old(active)
      ensures i in slides ==> ControlsShow(current)
      ensures i !in slides ==> unchanged(dots) && prevOpacity == old(prevOpacity) && nextOpacity == old(nextOpacity)
    {
      if i in slides {
        active := active + {i};
        UpdateNavigation();
      }
    }

    method GoToSlide(i: int)
      requires Valid()
      modifies this`current, this`animating, this`phase, this`active
      ensures Valid()
      ensures State() == Navigation.GoToSlide(slides, old(State()), i)
    {
      if animating || i == current {
        return;
      }
      animating := true;
      if current in slides {
        active := active - {current};
      }
      current := i;
      if current in slides {
        phase := PendingReveal(current);
      }
      GoToSlidePreservesInv(slides, old(State()), i);
    }

    method NextSlide()
      requires Valid()
      modifies this`current, this`animating, this`phase, this`active
      ensures Valid()
      ensures State() == Navigation.NextSlide(slides, old(State()))
    {
      if animating {
        return;
      }
      if current < TotalSlides - 1 {
        GoToSlide(current + 1);
      }
    }

    method PreviousSlide()
      requires Valid()
      modifies this`current, this`animating, this`phase, this`active
      ensures Valid()
      ensures State() == Navigation.PreviousSlide(slides, old(State()))
    {
      if animating {
        return;
      }
      if current > 0 {
        GoToSlide(current - 1);
      }
    }

    /** One tick of the auto-advance interval. */
    method AutoAdvanceTick()
      requires Valid()
      modifies this`current, this`animating, this`phase, this`active
      ensures Valid()
      ensures State() == Navigation.AutoAdvance(slides, old(State()))
    {
      if current < TotalSlides - 1 {
        NextSlide();
      } else {
        GoToSlide(0);
      }
    }

    /**
     The pending transition callback runs. The reveal step marks its target
     active, redraws the controls for the current slide and schedules the
     unlock step; the unlock step releases the lock.
     */
    method Step()
      requires Valid()
      modifies dots, this`animating, this`phase, this`active, this`prevOpacity, this`nextOpacity
      ensures Valid()
      ensures State() == Navigation.Step(old(State()))
      ensures old(phase).PendingReveal? ==> ControlsShow(current)
      ensures !old(phase).PendingReveal? ==>
                unchanged(dots) && prevOpacity == old(prevOpacity) && nextOpacity == old(nextOpacity)
    {
      ApplyPreservesInv(slides, State(), TimerFires);
      match phase
      case Idle =>
      case PendingReveal(t) =>
        active := active + {t};
        UpdateNavigation();
        phase := PendingUnlock;
      case PendingUnlock =>
        animating := false;
        phase := Idle;
    }

    /** Carry out a command from a button, a dot, a gesture or the public API. */
    method Dispatch(c: Command)
      requires Valid()
      modifies this`current, this`animating, this`phase, this`active
      ensures Valid()
      ensures State() == Perform(slides, old(State()), c)
    {
      match c
      case Next => NextSlide();
      case Previous => PreviousSlide();
      case GoTo(i) => GoToSlide(i);
    }

    /** The keydown handler; reports whether the default action was prevented. */
    method HandleKey(key: string) returns (prevented: bool)
      requires Valid()
      modifies this`current, this`animating, this`phase, this`active
      ensures Valid()
      ensures prevented == Input.KeyCommand(key).Some?
      ensures State() == if prevented then Perform(slides, old(State()), Input.KeyCommand(key).value)
                         else old(State())
    {
      var cmd := Input.KeyCommand(key);
      prevented := cmd.Some?;
      if cmd.Some? {
        Dispatch(cmd.value);
      }
    }

    /** The touchend handler: classify the gesture, then navigate. */
    method HandleTouchEnd(touch: Input.TouchTracker, endX: int, endY: int)
      requires Valid()
      modifies this`current, this`animating, this`phase, this`active, touch
      ensures Valid()
      ensures var cmd := Input.SwipeCommand(old(touch.startX), old(touch.startY), endX, endY);
        State() == if cmd.Some? then Perform(slides, old(State()), cmd.value) else old(State())
      ensures old(touch.startX) == 0 || old(touch.startY) == 0 ==>
                touch.startX == old(touch.startX) && touch.startY == old(touch.startY)
      ensures old(touch.startX) != 0 && old(touch.startY) != 0 ==> touch.startX == 0 && touch.startY == 0
    {
      var cmd := touch.TouchEnd(endX, endY);
      if cmd.Some? {
        Dispatch(cmd.value);
      }
    }
  }
}
