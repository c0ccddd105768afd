/**
 * The web client's two motion accumulators: the trackpad pointer handlers and two-finger scrolling.
 * Both measure from an anchor and send, then move the anchor, only once an axis passes a threshold.
 */
module GestureMotion {
  import opened Motion

  /** How far one unit of finger movement counts, and the scaled distance that must be passed before sending. */
  datatype Gesture = Gesture(factor: real, threshold: real) {
    predicate Positive() {
      factor > 0.0 && threshold >= 0.0
    }
  }

  const TRACKPAD := Gesture(1.3, 1.0)
  const SCROLL := Gesture(0.1, 0.1)

  datatype Event = Grab(at: Vec) | Move(at: Vec)

  /** The anchor and everything sent so far. */
  datatype Tracker = Tracker(anchor: Vec, sent: seq<Vec>)

  function Step(g: Gesture, s: Tracker, e: Event): Tracker {
    match e
    case Grab(p) => s.(anchor := p)
    case Move(p) =>
      var d := Scale(g.factor, Minus(p, s.anchor));
      if Abs(d.dx) > g.threshold || Abs(d.dy) > g.threshold then Tracker(p, s.sent + [d]) else s
  }

  /** The state after a run of events that follows a grab at `start`. */
  function After(g: Gesture, start: Vec, es: seq<Event>): Tracker {
    if |es| == 0 then Tracker(start, []) else Step(g, After(g, start, es[..|es| - 1]), es[|es| - 1])
  }

  // ---- What the fingers did ----

  function Position(start: Vec, es: seq<Event>): Vec {
    if |es| == 0 then start else es[|es| - 1].at
  }

  /** The net movement: a new grab lifts the finger and moves nothing. */
  function Travelled(start: Vec, es: seq<Event>): Vec {
    if |es| == 0 then ZERO else
      var front, e := es[..|es| - 1], es[|es| - 1];
      if e.Grab? then Travelled(start, front) else Plus(Travelled(start, front), Minus(e.at, Position(start, front)))
  }

  /** The length of the path along the axes, in scaled units. */
  function PathLength(g: Gesture, start: Vec, es: seq<Event>): real {
    if |es| == 0 then 0.0 else
      var front, e := es[..|es| - 1], es[|es| - 1];
      var step := Scale(g.factor, Minus(e.at, Position(start, front)));
      PathLength(g, start, front) + if e.Grab? then 0.0 else AxisLength(step)
  }

  function Grabs(es: seq<Event>): nat {
    if |es| == 0 then 0 else Grabs(es[..|es| - 1]) + if es[|es| - 1].Grab? then 1 else 0
  }

  /** The movement not yet sent. */
  function Residue(g: Gesture, start: Vec, es: seq<Event>): Vec {
    Scale(g.factor, Minus(Position(start, es), After(g, start, es).anchor))
  }

  /** The movement that grabs have discarded. */
  function Dropped(g: Gesture, start: Vec, es: seq<Event>): Vec {
    if |es| == 0 then ZERO else
      var front := es[..|es| - 1];
      Plus(Dropped(g, start, front), if es[|es| - 1].Grab? then Residue(g, start, front) else ZERO)
  }

  // ---- Every run ----

  /** After every event the movement not yet sent is within the threshold on both axes. */
  lemma ResidueSmall(g: Gesture, start: Vec, es: seq<Event>)
    requires g.Positive()
    ensures Within(Residue(g, start, es), g.threshold)
  {
  }

  /** Movement is conserved: scaled, it is what was sent, what grabs discarded and what is still unsent. */
  lemma {:induction false} MovementConserved(g: Gesture, start: Vec, es: seq<Event>)
    ensures var s := After(g, start, es);
            Scale(g.factor, Travelled(start, es))
            == Plus(Plus(Sum(s.sent), Dropped(g, start, es)), Residue(g, start, es))
  {
    hide Scale, Sum;
    ScalePlus(g.factor, start, start);
    if |es| == 0 {
      assert Sum([]) == ZERO by { SumEmpty(); }
    } else {
      var front, p := es[..|es| - 1], es[|es| - 1].at;
      var s, was := After(g, start, front), Position(start, front);
      MovementConserved(g, start, front);
      SumAppend(s.sent, Scale(g.factor, Minus(p, s.anchor)));
      ScalePlus(g.factor, Travelled(start, front), Minus(p, was));
      ScalePlus(g.factor, p, was);
      ScalePlus(g.factor, p, s.anchor);
      ScalePlus(g.factor, was, s.anchor);
      ScalePlus(g.factor, p, p);
    }
  }

  lemma {:induction false} DroppedSmall(g: Gesture, start: Vec, es: seq<Event>)
    requires g.Positive()
    ensures Within(Dropped(g, start, es), Times(Grabs(es), g.threshold))
  {
    hide Times, Residue;
    TimesNext(0, g.threshold);
    if |es| > 0 {
      var front := es[..|es| - 1];
      DroppedSmall(g, start, front);
      ResidueSmall(g, start, front);
      TimesNext(Grabs(front), g.threshold);
    }
  }

  /** The total sent is off by at most one threshold for each stroke of the finger. */
  lemma SentNearTravelled(g: Gesture, start: Vec, es: seq<Event>)
    requires g.Positive()
    ensures Within(Minus(Scale(g.factor, Travelled(start, es)), Sum(After(g, start, es).sent)),
                   Times(Grabs(es) + 1, g.threshold))
  {
    hide Residue, Dropped, Travelled, Sum, After, Scale, Times;
    MovementConserved(g, start, es);
    DroppedSmall(g, start, es);
    ResidueSmall(g, start, es);
    TimesNext(Grabs(es), g.threshold);
  }

  /** Within a stroke the total sent is exactly the movement of the anchor, and within the threshold of the finger's. */
  lemma {:induction false} OneStroke(g: Gesture, start: Vec, es: seq<Event>)
    requires g.Positive() && Grabs(es) == 0
    ensures var s := After(g, start, es);
            && Travelled(start, es) == Minus(Position(start, es), start)
            && Sum(s.sent) == Scale(g.factor, Minus(s.anchor, start))
            && Within(Minus(Scale(g.factor, Minus(Position(start, es), start)), Sum(s.sent)), g.threshold)
  {
    hide Dropped, Travelled, Sum, After, Scale, Position;
    Telescopes(start, es);
    MovementConserved(g, start, es);
    ResidueSmall(g, start, es);
    NothingDropped(g, start, es);
    var s := After(g, start, es);
    ScalePlus(g.factor, Position(start, es), start);
    ScalePlus(g.factor, Position(start, es), s.anchor);
    ScalePlus(g.factor, s.anchor, start);
  }

  lemma {:induction false} NothingDropped(g: Gesture, start: Vec, es: seq<Event>)
    requires Grabs(es) == 0
    ensures Dropped(g, start, es) == ZERO
  {
    if |es| > 0 {
      NothingDropped(g, start, es[..|es| - 1]);
    }
  }

  lemma {:induction false} Telescopes(start: Vec, es: seq<Event>)
    requires Grabs(es) == 0
    ensures Travelled(start, es) == Minus(Position(start, es), start)
  {
    if |es| > 0 {
      Telescopes(start, es[..|es| - 1]);
    }
  }

  // ---- What is worth sending ----

  /** Every event sent passes the threshold on an axis. */
  lemma {:induction false} SendsPassThreshold(g: Gesture, start: Vec, es: seq<Event>)
    ensures forall v :: v in After(g, start, es).sent ==> Abs(v.dx) > g.threshold || Abs(v.dy) > g.threshold
  {
    if |es| > 0 {
      SendsPassThreshold(g, start, es[..|es| - 1]);
    }
  }

  /** So every trackpad event moves the cursor by at least a pixel. */
  lemma {:induction false} EverySendMoves(start: Vec, es: seq<Event>)
    ensures forall v :: v in After(TRACKPAD, start, es).sent ==> Trunc(v.dx) != 0 || Trunc(v.dy) != 0
  {
    SendsPassThreshold(TRACKPAD, start, es);
    forall v | v in After(TRACKPAD, start, es).sent ensures Trunc(v.dx) != 0 || Trunc(v.dy) != 0 {
      TruncNear(v.dx);
      TruncNear(v.dy);
    }
  }

  /** The number of events is bounded by the length of the path, whatever the number of pointer events. */
  lemma {:induction false} SendsBoundedByPath(g: Gesture, start: Vec, es: seq<Event>)
    requires g.Positive()
    ensures Times(|After(g, start, es).sent|, g.threshold) + AxisLength(Residue(g, start, es))
            <= PathLength(g, start, es)
  {
    hide Times, AxisLength, Scale;
    TimesNext(0, g.threshold);
    if |es| == 0 {
      EmptyLength(g.factor, start);
    } else {
      var front, e := es[..|es| - 1], es[|es| - 1];
      var s, pos := After(g, start, front), Position(start, front);
      SendsBoundedByPath(g, start, front);
      LengthAfter(g, s.anchor, pos, e.at);
      LengthAfter(g, e.at, e.at, e.at);
      TimesNext(|s.sent|, g.threshold);
    }
  }

  lemma EmptyLength(k: real, p: Vec)
    ensures AxisLength(Scale(k, Minus(p, p))) == 0.0
  {
  }

  /** A step lengthens the unsent movement by at most its own length, and a move is sent only over the threshold. */
  lemma LengthAfter(g: Gesture, anchor: Vec, pos: Vec, p: Vec)
    requires g.Positive()
    ensures AxisLength(Scale(g.factor, Minus(p, anchor)))
            <= AxisLength(Scale(g.factor, Minus(pos, anchor))) + AxisLength(Scale(g.factor, Minus(p, pos)))
    ensures var d := Scale(g.factor, Minus(p, anchor));
            Abs(d.dx) > g.threshold || Abs(d.dy) > g.threshold ==> AxisLength(d) > g.threshold
    ensures AxisLength(Scale(g.factor, Minus(p, p))) == 0.0
  {
    hide Scale;
    ScalePlus(g.factor, p, anchor);
    ScalePlus(g.factor, pos, anchor);
    ScalePlus(g.factor, p, pos);
    ScalePlus(g.factor, p, p);
  }

  // ---- The two gestures in numbers ----

  /**
   * One stroke on the trackpad: the total sent is 1.3 times the movement of the anchor, what is unsent is at most 1 on
   * each axis, and every event sent is more than 1 on some axis.
   */
  lemma TrackpadStroke(start: Vec, es: seq<Event>)
    requires Grabs(es) == 0
    ensures var s := After(TRACKPAD, start, es);
            && Sum(s.sent) == Scale(1.3, Minus(s.anchor, start))
            && Within(Scale(1.3, Minus(Position(start, es), s.anchor)), 1.0)
            && forall v :: v in s.sent ==> Abs(v.dx) > 1.0 || Abs(v.dy) > 1.0
  {
    hide Sum, After, Position, Travelled;
    OneStroke(TRACKPAD, start, es);
    ResidueSmall(TRACKPAD, start, es);
    SendsPassThreshold(TRACKPAD, start, es);
  }

  /** One two-finger stroke: the same with a tenth of the movement and 0.1. */
  lemma ScrollStroke(start: Vec, es: seq<Event>)
    requires Grabs(es) == 0
    ensures var s := After(SCROLL, start, es);
            && Sum(s.sent) == Scale(0.1, Minus(s.anchor, start))
            && Within(Scale(0.1, Minus(Position(start, es), s.anchor)), 0.1)
            && forall v :: v in s.sent ==> Abs(v.dx) > 0.1 || Abs(v.dy) > 0.1
  {
    hide Sum, After, Position, Travelled;
    OneStroke(SCROLL, start, es);
    ResidueSmall(SCROLL, start, es);
    SendsPassThreshold(SCROLL, start, es);
  }

  /** The anchor is the start, or a position at which the finger was. */
  lemma {:induction false} AnchorVisited(g: Gesture, start: Vec, es: seq<Event>)
    ensures var a := After(g, start, es).anchor; a == start || exists i :: 0 <= i < |es| && es[i].at == a
  {
    if |es| > 0 {
      var front := es[..|es| - 1];
      AnchorVisited(g, start, front);
      if i :| 0 <= i < |front| && front[i].at == After(g, start, front).anchor {
        assert es[i] == front[i];
      }
      var anchor := After(g, start, es).anchor;
      assert es[|es| - 1].at == anchor || After(g, start, front).anchor == anchor;
    }
  }

  // ---- At the agent ----

  /** The cursor ends within n + 1 pixels of 1.3 times a stroke's movement after n events. */
  lemma CursorFollowsTrackpad(start: Vec, es: seq<Event>)
    requires Grabs(es) == 0
    ensures var sent := After(TRACKPAD, start, es).sent;
            var moved := Minus(Position(start, es), start);
            |sent| > 0 ==> StrictlyWithin(Minus(Injected(1.0, sent), Scale(1.3, moved)), (|sent| + 1) as real)
  {
    hide Sum, Injected, After, Position, Travelled;
    var sent := After(TRACKPAD, start, es).sent;
    OneStroke(TRACKPAD, start, es);
    TruncationError(1.0, sent);
  }

  /** The wheel turns within n + 12 units of 12 times a two-finger stroke's movement after n events. */
  lemma WheelFollowsFingers(start: Vec, es: seq<Event>)
    requires Grabs(es) == 0
    ensures var sent := After(SCROLL, start, es).sent;
            var moved := Minus(Position(start, es), start);
            |sent| > 0 ==> StrictlyWithin(Minus(Injected(120.0, sent), Scale(12.0, moved)), (|sent| + 12) as real)
  {
    hide Sum, Injected, After, Position, Travelled;
    var sent := After(SCROLL, start, es).sent;
    OneStroke(SCROLL, start, es);
    TruncationError(120.0, sent);
  }

  // ---- The handlers ----

  /** `trackpadStart` and the pointer handlers of the trackpad area. */
  class Trackpad {
    var trackpadStart: Vec
    var sent: seq<Vec>

    ghost function State(): Tracker
      reads this
    {
      Tracker(trackpadStart, sent)
    }

    constructor ()
      ensures State() == After(TRACKPAD, ZERO, [])
    {
      trackpadStart := ZERO;
      sent := [];
    }

    method PointerDown(client: Vec)
      modifies this
      ensures State() == Step(TRACKPAD, old(State()), Grab(client))
    {
      trackpadStart := client;
    }

    method PointerMove(client: Vec, captured: bool)
      modifies this
      ensures State() == if captured then Step(TRACKPAD, old(State()), Move(client)) else old(State())
    {
      if !captured {
        return;
      }
      var dx := (client.dx - trackpadStart.dx) * 1.3;
      var dy := (client.dy - trackpadStart.dy) * 1.3;
      if Abs(dx) > 1.0 || Abs(dy) > 1.0 {
        sent := sent + [Vec(dx, dy)];
        trackpadStart := client;
      }
    }
  }

  function Midpoint(a: Vec, b: Vec): Vec {
    Vec((a.dx + b.dx) / 2.0, (a.dy + b.dy) / 2.0)
  }

  /** Moving two fingers together moves their midpoint along; pinching leaves it. */
  lemma MidpointMoves(a: Vec, b: Vec, v: Vec)
    ensures Midpoint(Plus(a, v), Plus(b, v)) == Plus(Midpoint(a, b), v)
    ensures Midpoint(Plus(a, v), Minus(b, v)) == Midpoint(a, b) == Midpoint(b, a)
    ensures Midpoint(a, a) == a
  {
  }

  /** `lastTouchX`, `lastTouchY` and the touch handlers: only two fingers scroll. */
  class TwoFingerScroll {
    var lastTouchX: real
    var lastTouchY: real
    var sent: seq<Vec>

    ghost function State(): Tracker
      reads this
    {
      Tracker(Vec(lastTouchX, lastTouchY), sent)
    }

    constructor ()
      ensures State() == After(SCROLL, ZERO, [])
    {
      lastTouchX, lastTouchY := 0.0, 0.0;
      sent := [];
    }

    method TouchStart(touches: seq<Vec>)
      modifies this
      ensures |touches| == 2 ==> State() == Step(SCROLL, old(State()), Grab(Midpoint(touches[0], touches[1])))
      ensures |touches| != 2 ==> State() == old(State())
    {
      if |touches| == 2 {
        lastTouchY := (touches[0].dy + touches[1].dy) / 2.0;
        lastTouchX := (touches[0].dx + touches[1].dx) / 2.0;
      }
    }

    method TouchMove(touches: seq<Vec>)
      modifies this
      ensures |touches| == 2 ==> State() == Step(SCROLL, old(State()), Move(Midpoint(touches[0], touches[1])))
      ensures |touches| != 2 ==> State() == old(State())
    {
      if |touches| == 2 {
        var currentY := (touches[0].dy + touches[1].dy) / 2.0;
        var currentX := (touches[0].dx + touches[1].dx) / 2.0;
        var dy := (currentY - lastTouchY) / 10.0;
        var dx := (currentX - lastTouchX) / 10.0;
        if Abs(dy) > 0.1 || Abs(dx) > 0.1 {
          sent := sent + [Vec(dx, dy)];
          lastTouchY := currentY;
          lastTouchX := currentX;
        }
      }
    }
  }
}
