/**
 * SaimonApp.initializeClusterCarousel: drag-to-scroll on the cluster
 * carousel. The closure variables isDown, startX and scrollLeft (here
 * `snapshot`) and the element's scrollLeft and cursor are the state; mouse
 * events move it. The element's offsetLeft is read afresh by every press and
 * move, so it travels with those events; scrolling by any other means (wheel,
 * touch, keyboard) is the `Scrolled` event.
 */
module Carousel {

  datatype DragEvent =
    | MouseDown(pageX: int, offsetLeft: int)
    | MouseLeave
    | MouseUp
    | MouseMove(pageX: int, offsetLeft: int)
    | Scrolled(scrollLeft: int)

  /** isDown, startX, the scrollLeft snapshot taken at mousedown, and the
      element's own scrollLeft and cursor style. */
  datatype Drag = Drag(isDown: bool, startX: int, snapshot: int, scrollLeft: int, cursor: string)

  /** Every pointer step moves the content twice as far as the pointer. */
  const DragFactor: int := 2

  /** What one event does. */
  function HandleDrag(s: Drag, e: DragEvent): (r: Drag)
    ensures r.isDown <==> e.MouseDown? || (s.isDown && !e.MouseLeave? && !e.MouseUp?)
    ensures !(s.isDown && e.MouseMove?) && !e.Scrolled? ==> r.scrollLeft == s.scrollLeft
    ensures !e.MouseDown? ==> r.startX == s.startX && r.snapshot == s.snapshot
  {
    match e
    case MouseDown(pageX, offsetLeft) =>
      s.(isDown := true, cursor := "grabbing", startX := pageX - offsetLeft, snapshot := s.scrollLeft)
    case MouseLeave => s.(isDown := false, cursor := "grab")
    case MouseUp => s.(isDown := false, cursor := "grab")
    case MouseMove(pageX, offsetLeft) =>
      if !s.isDown then s
      else s.(scrollLeft := s.snapshot - (pageX - offsetLeft - s.startX) * DragFactor)
    case Scrolled(to) => s.(scrollLeft := to)
  }

  /** Events handled in order. */
  function RunDrag(s: Drag, events: seq<DragEvent>): Drag
    decreases |events|
  {
    if events == [] then s else RunDrag(HandleDrag(s, events[0]), events[1..])
  }

  /** Pointer positions as a run of mousemove events over a carousel at
      offset `offsetLeft`. */
  function Moves(xs: seq<int>, offsetLeft: int): (es: seq<DragEvent>)
    ensures |es| == |xs| && forall i :: 0 <= i < |xs| ==> es[i] == MouseMove(xs[i], offsetLeft)
  {
    seq(|xs|, i requires 0 <= i < |xs| => MouseMove(xs[i], offsetLeft))
  }

  /** A press at x0 followed by moves, while the carousel stays where it is,
      ends with the content scrolled by twice the distance from x0 to the last
      pointer position, counted from where it was at the press; the moves in
      between do not matter, and the drag is still on. */
  lemma {:induction false} DragScrollsByTwiceTheDelta(s: Drag, offsetLeft: int, x0: int, xs: seq<int>)
    requires xs != []
    ensures var t := RunDrag(s, [MouseDown(x0, offsetLeft)] + Moves(xs, offsetLeft));
      t.isDown && t.scrollLeft == s.scrollLeft - DragFactor * (xs[|xs| - 1] - x0)
    decreases |xs|
  {
    var pressed := HandleDrag(s, MouseDown(x0, offsetLeft));
    assert ([MouseDown(x0, offsetLeft)] + Moves(xs, offsetLeft))[1..] == Moves(xs, offsetLeft);
    MovesWhileDown(pressed, offsetLeft, xs);
  }

  /** Moves during a drag: each one replaces scrollLeft from the snapshot. */
  lemma {:induction false} MovesWhileDown(s: Drag, offsetLeft: int, xs: seq<int>)
    requires s.isDown && xs != []
    ensures var t := RunDrag(s, Moves(xs, offsetLeft));
      t.isDown && t.startX == s.startX && t.snapshot == s.snapshot &&
      t.scrollLeft == s.snapshot - (xs[|xs| - 1] - offsetLeft - s.startX) * DragFactor
    decreases |xs|
  {
    var next := HandleDrag(s, MouseMove(xs[0], offsetLeft));
    if |xs| > 1 {
      assert Moves(xs, offsetLeft)[1..] == Moves(xs[1..], offsetLeft);
      MovesWhileDown(next, offsetLeft, xs[1..]);
    } else {
      assert Moves(xs, offsetLeft)[1..] == [];
    }
  }

  /** Moving the pointer back to where it was pressed puts the content back. */
  lemma MoveBackRestores(s: Drag, offsetLeft: int, x0: int, xs: seq<int>)
    ensures RunDrag(s, [MouseDown(x0, offsetLeft)] + Moves(xs + [x0], offsetLeft)).scrollLeft == s.scrollLeft
  {
    DragScrollsByTwiceTheDelta(s, offsetLeft, x0, xs + [x0]);
  }

  /** When the carousel shifts in the page between the press (offset o1) and
      a move (offset o2), the move is measured against the new offset: the
      content scrolls by twice the change in carousel-relative position, not
      in page position. */
  lemma LayoutShiftDuringDrag(s: Drag, x0: int, o1: int, x: int, o2: int)
    ensures var t := RunDrag(s, [MouseDown(x0, o1), MouseMove(x, o2)]);
      t.isDown && t.scrollLeft == s.scrollLeft - DragFactor * ((x - o2) - (x0 - o1))
  {
    var pressed := HandleDrag(s, MouseDown(x0, o1));
    var moved := HandleDrag(pressed, MouseMove(x, o2));
    assert RunDrag(s, [MouseDown(x0, o1), MouseMove(x, o2)]) == RunDrag(pressed, [MouseMove(x, o2)]);
    assert RunDrag(pressed, [MouseMove(x, o2)]) == RunDrag(moved, []);
  }

  /** A press takes its snapshot of the element's live scrollLeft, so content
      scrolled by other means before the press is dragged from there; while
      held, such a scroll is overwritten by the next move. */
  lemma PressSnapshotsLiveScroll(s: Drag, to: int, x0: int, o: int, x: int)
    ensures RunDrag(s, [Scrolled(to), MouseDown(x0, o)]).snapshot == to
    ensures var t := RunDrag(s, [Scrolled(to), MouseDown(x0, o), Scrolled(to + 1), MouseMove(x, o)]);
      t.scrollLeft == to - DragFactor * (x - x0)
  {
    var a := HandleDrag(s, Scrolled(to));
    var b := HandleDrag(a, MouseDown(x0, o));
    var c := HandleDrag(b, Scrolled(to + 1));
    var d := HandleDrag(c, MouseMove(x, o));
    assert RunDrag(s, [Scrolled(to), MouseDown(x0, o)]) == RunDrag(a, [MouseDown(x0, o)]);
    assert RunDrag(a, [MouseDown(x0, o)]) == RunDrag(b, []);
    var es := [Scrolled(to), MouseDown(x0, o), Scrolled(to + 1), MouseMove(x, o)];
    assert RunDrag(s, es) == RunDrag(a, es[1..]);
    assert es[1..][1..] == es[2..] && es[2..][1..] == es[3..] && es[3..][1..] == [];
    assert RunDrag(a, es[1..]) == RunDrag(b, es[2..]);
    assert RunDrag(b, es[2..]) == RunDrag(c, es[3..]);
    assert RunDrag(c, es[3..]) == RunDrag(d, []);
  }

  /** Moves while not dragging change nothing. */
  lemma {:induction false} MovesWhileUp(s: Drag, offsetLeft: int, xs: seq<int>)
    requires !s.isDown
    ensures RunDrag(s, Moves(xs, offsetLeft)) == s
    decreases |xs|
  {
    if xs != [] {
      assert Moves(xs, offsetLeft)[1..] == Moves(xs[1..], offsetLeft);
      MovesWhileUp(s, offsetLeft, xs[1..]);
    }
  }

  /** mouseup and mouseleave both end the drag, after which moves are ignored. */
  lemma ReleaseEndsDrag(s: Drag, release: DragEvent, offsetLeft: int, xs: seq<int>)
    requires release == MouseUp || release == MouseLeave
    ensures var t := HandleDrag(s, release);
      !t.isDown && t.cursor == "grab" && t.scrollLeft == s.scrollLeft &&
      RunDrag(t, Moves(xs, offsetLeft)) == t
  {
    MovesWhileUp(HandleDrag(s, release), offsetLeft, xs);
  }

  /** The carousel element and the handlers' closure variables. */
  class CarouselView {
    var isDown: bool
    var startX: int
    var snapshot: int
    var scrollLeft: int
    var cursor: string

    function State(): Drag
      reads this
    {
      Drag(isDown, startX, snapshot, scrollLeft, cursor)
    }

    /** Before any press isDown is false; startX and the snapshot are unset
        in the source and are never read before a press. */
    constructor (scrollLeft: int, cursor: string)
      ensures !isDown && this.scrollLeft == scrollLeft && this.cursor == cursor
    {
      isDown := false;
      startX := 0;
      snapshot := 0;
      this.scrollLeft := scrollLeft;
      this.cursor := cursor;
    }

    /** `offsetLeft` is the element's offset at the time of the event. */
    method OnMouseDown(pageX: int, offsetLeft: int)
      modifies this
      ensures State() == HandleDrag(old(State()), MouseDown(pageX, offsetLeft))
    {
      isDown := true;
      cursor := "grabbing";
      startX := pageX - offsetLeft;
      snapshot := scrollLeft;
    }

    method OnMouseLeave()
      modifies this
      ensures State() == HandleDrag(old(State()), MouseLeave)
    {
      isDown := false;
      cursor := "grab";
    }

    method OnMouseUp()
      modifies this
      ensures State() == HandleDrag(old(State()), MouseUp)
    {
      isDown := false;
      cursor := "grab";
    }

    method OnMouseMove(pageX: int, offsetLeft: int)
      modifies this
      ensures State() == HandleDrag(old(State()), MouseMove(pageX, offsetLeft))
    {
      if !isDown {
        return;
      }
      var x := pageX - offsetLeft;
      var walk := (x - startX) * DragFactor;
      scrollLeft := snapshot - walk;
    }

    /** The browser scrolls the element by other means. */
    method Scroll(to: int)
      modifies this
      ensures State() == HandleDrag(old(State()), Scrolled(to))
    {
      scrollLeft := to;
    }
  }
}
