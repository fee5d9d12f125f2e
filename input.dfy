/**
 Classification of user input into navigator commands: the keyboard
 switch and the horizontal-swipe rule of the touch handlers.
 */
module Input {
  import opened Options
  import opened Navigation

  /**
   The keyboard map: right arrow and space go forward, left arrow goes
   back, Home goes to the first slide and End to the last. Any other key is
   not handled (and its default action is not prevented).
   */
  function KeyCommand(key: string): (r: Option<Command>)
    ensures r == Some(Next) <==> key == "ArrowRight" || key == " "
    ensures r == Some(Previous) <==> key == "ArrowLeft"
    ensures r == Some(GoTo(0)) <==> key == "Home"
    ensures r == Some(GoTo(TotalSlides - 1)) <==> key == "End"
    ensures r.None? <==> key !in {"ArrowRight", " ", "ArrowLeft", "Home", "End"}
    ensures r.Some? ==> InRangeCommand(r.value)
  {
    if key == "ArrowRight" || key == " " then Some(Next)
    else if key == "ArrowLeft" then Some(Previous)
    else if key == "Home" then Some(GoTo(0))
    else if key == "End" then Some(GoTo(TotalSlides - 1))
    else None
  }

  function Abs(x: int): (r: nat)
  {
    if x < 0 then -x else x
  }

  /** The minimum horizontal travel, in pixels, of a swipe. */
  const SwipeThreshold: int := 50

  /**
   The touchend decision. A recorded start coordinate of 0 means "no
   gesture" (the handler tests the coordinates for truthiness). Otherwise
   the gesture counts only when it moved farther horizontally than
   vertically and more than the threshold; moving left (start right of end)
   goes forward, moving right goes back.
   */
  function SwipeCommand(startX: int, startY: int, endX: int, endY: int): (r: Option<Command>)
    ensures r.Some? <==>
              && startX != 0 && startY != 0
              && Abs(startX - endX) > Abs(startY - endY)
              && Abs(startX - endX) > SwipeThreshold
    ensures r.Some? ==> (r.value == Next <==> startX > endX)
    ensures r.Some? ==> (r.value == Previous <==> startX < endX)
  {
    if startX == 0 || startY == 0 then None
    else
      var dx := startX - endX;
      var dy := startY - endY;
      if Abs(dx) > Abs(dy) && Abs(dx) > SwipeThreshold then
        if dx > 0 then Some(Next) else Some(Previous)
      else None
  }

  /**
   The same gesture traced backwards asks for the opposite move, so the two
   directions are treated symmetrically.
   */
  lemma SwipeReversal(sx: int, sy: int, ex: int, ey: int)
    requires sx != 0 && sy != 0 && ex != 0 && ey != 0
    ensures SwipeCommand(sx, sy, ex, ey) == Some(Next) <==> SwipeCommand(ex, ey, sx, sy) == Some(Previous)
    ensures SwipeCommand(sx, sy, ex, ey).None? <==> SwipeCommand(ex, ey, sx, sy).None?
  {
    assert Abs(sx - ex) == Abs(ex - sx);
    assert Abs(sy - ey) == Abs(ey - sy);
  }

  /**
   The touch handlers' shared start point. `touchstart` records it; a
   `touchend` past the zero test classifies the gesture and resets it to
   (0, 0). A `touchend` that fails the zero test returns early and leaves
   the start point as it was.
   */
  class TouchTracker {
    var startX: int
    var startY: int

    constructor ()
      ensures startX == 0 && startY == 0
    {
      startX, startY := 0, 0;
    }

    method TouchStart(x: int, y: int)
      modifies this
      ensures startX == x && startY == y
    {
      startX, startY := x, y;
    }

    method TouchEnd(endX: int, endY: int) returns (cmd: Option<Command>)
      modifies this
      ensures cmd == SwipeCommand(old(startX), old(startY), endX, endY)
      ensures old(startX) == 0 || old(startY) == 0 ==> startX == old(startX) && startY == old(startY)
      ensures old(startX) != 0 && old(startY) != 0 ==> startX == 0 && startY == 0
    {
      if startX == 0 || startY == 0 {
        return None;
      }
      var diffX := startX - endX;
      var diffY := startY - endY;
      cmd := None;
      if Abs(diffX) > Abs(diffY) && Abs(diffX) > SwipeThreshold {
        if diffX > 0 {
          cmd := Some(Next);
        } else {
          cmd := Some(Previous);
        }
      }
      startX, startY := 0, 0;
    }
  }
}
