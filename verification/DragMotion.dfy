/** The iOS drag gesture: rate-limited relative moves in trackpad mode, absolute moves in touch mode. */
module DragMotion {
  import opened Motion
  import opened PointerGeometry

  const SENSITIVITY := 1.4
  const MIN_INTERVAL := 0.022

  datatype InputMode = TrackpadMode | TouchMode

  /**
   * A callback of the gesture, or the timer that releases the button after a tap. The translation is measured from
   * where the drag began and `norm` is the normalised location; the mode may change between callbacks.
   */
  datatype Event =
    | Changed(mode: InputMode, translation: Vec, norm: Point, now: real)
    | Ended(mode: InputMode, translation: Vec, norm: Point)
    | TimerFired

  datatype Input = MoveRel(delta: Vec) | MoveAbs(position: Point) | LeftDown | LeftUp

  datatype Drag = Drag(accumulated: Vec, lastTranslation: Vec, lastEventTime: real, timers: nat, sent: seq<Input>)

  const INITIAL := Drag(ZERO, ZERO, 0.0, 0, [])

  predicate Due(s: Drag, now: real) {
    now - s.lastEventTime >= MIN_INTERVAL
  }

  /** A drag that ends within 8 points of where it began. */
  predicate IsTap(translation: Vec) {
    translation.dx * translation.dx + translation.dy * translation.dy < 64.0
  }

  function Step(s: Drag, e: Event): Drag {
    match e
    case Changed(TrackpadMode, t, _, now) =>
      var owed := Plus(s.accumulated, Minus(t, s.lastTranslation));
      if Due(s, now) then Drag(ZERO, t, now, s.timers, s.sent + [MoveRel(Scale(SENSITIVITY, owed))])
      else s.(accumulated := owed, lastTranslation := t)
    case Changed(TouchMode, _, norm, now) =>
      if Due(s, now) then s.(lastEventTime := now, sent := s.sent + [MoveAbs(norm)]) else s
    case Ended(TrackpadMode, t, _) =>
      var last := Scale(SENSITIVITY, Plus(s.accumulated, Minus(t, s.lastTranslation)));
      Drag(ZERO, ZERO, s.lastEventTime, s.timers, if last == ZERO then s.sent else s.sent + [MoveRel(last)])
    case Ended(TouchMode, t, norm) =>
      var moved := s.sent + [MoveAbs(norm)];
      if IsTap(t) then s.(timers := s.timers + 1, sent := moved + [LeftDown]) else s.(sent := moved)
    case TimerFired => if s.timers > 0 then s.(timers := s.timers - 1, sent := s.sent + [LeftUp]) else s
  }

  function After(s: Drag, es: seq<Event>): Drag {
    if |es| == 0 then s else Step(After(s, es[..|es| - 1]), es[|es| - 1])
  }

  // ---- What is accounted for ----

  /** The relative moves among what was sent. */
  function RelativeMoves(sent: seq<Input>): seq<Vec> {
    if |sent| == 0 then [] else
      var front, i := sent[..|sent| - 1], sent[|sent| - 1];
      RelativeMoves(front) + if i.MoveRel? then [i.delta] else []
  }

  predicate EndsTrackpad(e: Event) {
    e.Ended? && e.mode == TrackpadMode
  }

  /** The final translations of the drags that ended in trackpad mode. */
  function Completed(es: seq<Event>): Vec {
    if |es| == 0 then ZERO else
      var front, e := es[..|es| - 1], es[|es| - 1];
      if EndsTrackpad(e) then Plus(Completed(front), e.translation) else Completed(front)
  }

  /** The sum of the relative moves sent. */
  function Total(sent: seq<Input>): Vec {
    Sum(RelativeMoves(sent))
  }

  lemma TotalEmpty()
    ensures Total([]) == ZERO
  {
  }

  lemma TotalAppend(sent: seq<Input>, i: Input)
    ensures RelativeMoves(sent + [i]) == RelativeMoves(sent) + if i.MoveRel? then [i.delta] else []
    ensures Total(sent + [i]) == if i.MoveRel? then Plus(Total(sent), i.delta) else Total(sent)
  {
    assert (sent + [i])[..|sent|] == sent;
    if i.MoveRel? {
      SumAppend(RelativeMoves(sent), i.delta);
    } else {
      assert RelativeMoves(sent) + [] == RelativeMoves(sent);
    }
  }

  // ---- Conservation ----

  /**
   * In every run, with any timing and any change of mode: the relative moves sent and what is still accumulated
   * grow by 1.4 times the completed drags and the change of the translation last seen.
   */
  lemma {:induction false} MotionConserved(s: Drag, es: seq<Event>)
    ensures var s' := After(s, es);
            Plus(Plus(Total(s'.sent), Scale(SENSITIVITY, s'.accumulated)), Scale(SENSITIVITY, s.lastTranslation))
            == Plus(Plus(Total(s.sent), Scale(SENSITIVITY, s.accumulated)),
                    Scale(SENSITIVITY, Plus(Completed(es), s'.lastTranslation)))
  {
    hide Total, Step, Scale;
    ScalePlus(SENSITIVITY, ZERO, ZERO);
    if |es| == 0 {
      ScalePlus(SENSITIVITY, ZERO, s.lastTranslation);
    } else {
      var front, e := es[..|es| - 1], es[|es| - 1];
      var before, after := After(s, front), After(s, es);
      MotionConserved(s, front);
      StepConserves(before, e);
      ScalePlus(SENSITIVITY, Completed(front), before.lastTranslation);
      ScalePlus(SENSITIVITY, Completed(es), after.lastTranslation);
      if EndsTrackpad(e) {
        ScalePlus(SENSITIVITY, Completed(front), e.translation);
        ScalePlus(SENSITIVITY, e.translation, after.lastTranslation);
      }
      ScalePlus(SENSITIVITY, ZERO, after.lastTranslation);
    }
  }

  /** What a step adds to the relative moves. */
  lemma StepConserves(s: Drag, e: Event)
    ensures var s' := Step(s, e);
            var finished := if EndsTrackpad(e) then e.translation else ZERO;
            Minus(Plus(Total(s'.sent), Scale(SENSITIVITY, s'.accumulated)),
                  Plus(Total(s.sent), Scale(SENSITIVITY, s.accumulated)))
            == Minus(Scale(SENSITIVITY, Plus(finished, s'.lastTranslation)), Scale(SENSITIVITY, s.lastTranslation))
  {
    hide Total, IsTap, Scale;
    ScalePlus(SENSITIVITY, ZERO, ZERO);
    ScalePlus(SENSITIVITY, ZERO, s.lastTranslation);
    match e
    case TimerFired => TotalAppend(s.sent, LeftUp);
    case Changed(_, t, norm, _) =>
      OwedMotion(s, t);
      TotalAppend(s.sent, MoveAbs(norm));
      ScalePlus(SENSITIVITY, ZERO, t);
    case Ended(_, t, norm) =>
      OwedMotion(s, t);
      TotalAppend(s.sent, MoveAbs(norm));
      TotalAppend(s.sent + [MoveAbs(norm)], LeftDown);
      ScalePlus(SENSITIVITY, t, ZERO);
  }

  /** What is owed at translation t, and the total once it is sent. */
  lemma OwedMotion(s: Drag, t: Vec)
    ensures var owed := Scale(SENSITIVITY, Plus(s.accumulated, Minus(t, s.lastTranslation)));
            && owed == Plus(Scale(SENSITIVITY, s.accumulated),
                            Minus(Scale(SENSITIVITY, t), Scale(SENSITIVITY, s.lastTranslation)))
            && Total(s.sent + [MoveRel(owed)]) == Plus(Total(s.sent), owed)
  {
    hide Total, Scale;
    var d := Minus(t, s.lastTranslation);
    ScalePlus(SENSITIVITY, s.accumulated, d);
    ScalePlus(SENSITIVITY, t, s.lastTranslation);
    TotalAppend(s.sent, MoveRel(Scale(SENSITIVITY, Plus(s.accumulated, d))));
  }

  /**
   * The relative moves of any run that ends a trackpad drag sum to exactly 1.4 times its completed drags if and only if
   * it began with the accumulated motion equal to the translation last seen.
   */
  lemma DragsSumExactlyIff(s: Drag, es: seq<Event>)
    requires |es| > 0 && EndsTrackpad(es[|es| - 1])
    ensures var s' := After(s, es);
            && s'.accumulated == s'.lastTranslation == ZERO
            && (Total(s'.sent) == Plus(Total(s.sent), Scale(SENSITIVITY, Completed(es))) <==> Settled(s))
  {
    hide Total, Completed;
    MotionConserved(s, es);
  }

  /** Nothing of an earlier drag is left over. */
  predicate Settled(s: Drag) {
    s.accumulated == s.lastTranslation
  }

  /** The time of the last change that came at least 0.022 s after the one before it; at first 0. */
  function LastTime(es: seq<Event>): real {
    if |es| == 0 then 0.0 else
      var front, e := es[..|es| - 1], es[|es| - 1];
      if e.Changed? && e.now - LastTime(front) >= 0.022 then e.now else LastTime(front)
  }

  lemma {:induction false} TimeKept(es: seq<Event>)
    ensures After(INITIAL, es).lastEventTime == LastTime(es)
  {
    hide IsTap, Scale;
    if |es| > 0 {
      TimeKept(es[..|es| - 1]);
    }
  }

  /** The translation at the last trackpad move sent since a trackpad drag ended; zero if there was none. */
  function LastSent(es: seq<Event>): Vec {
    if |es| == 0 then ZERO else
      var front, e := es[..|es| - 1], es[|es| - 1];
      if EndsTrackpad(e) then ZERO
      else if e.Changed? && e.mode == TrackpadMode && e.now - LastTime(front) >= 0.022 then e.translation
      else LastSent(front)
  }

  /** In every run what was sent of unfinished drags is 1.4 times the translation at the last trackpad move sent. */
  lemma {:induction false} LeftOver(es: seq<Event>)
    ensures var s := After(INITIAL, es); LastSent(es) == Minus(s.lastTranslation, s.accumulated)
    ensures Settled(After(INITIAL, es)) <==> LastSent(es) == ZERO
  {
    hide IsTap, Scale;
    if |es| > 0 {
      LeftOver(es[..|es| - 1]);
      TimeKept(es[..|es| - 1]);
    }
  }

  /** At any moment the moves sent are exactly 1.4 times the completed drags if and only if nothing is left over. */
  lemma CompletedExactlyIff(es: seq<Event>)
    ensures Total(After(INITIAL, es).sent) == Scale(SENSITIVITY, Completed(es)) <==> LastSent(es) == ZERO
  {
    hide Total, Completed, After, LastSent;
    assert Total([]) == ZERO by { TotalEmpty(); }
    MotionConserved(INITIAL, es);
    LeftOver(es);
  }

  /** The callbacks of one drag: changes, and timers of earlier taps, until the end. */
  predicate IsTrackpadDrag(es: seq<Event>) {
    |es| > 0 && EndsTrackpad(es[|es| - 1]) && forall i :: 0 <= i < |es| - 1 ==> !es[i].Ended?
  }

  /**
   * After any history a trackpad drag moves the pointer by 1.4 times its final translation less the translation last
   * sent of unfinished drags: exactly 1.4 times the final translation if and only if the latter is zero.
   */
  lemma DragAfterHistory(history: seq<Event>, drag: seq<Event>)
    requires IsTrackpadDrag(drag)
    ensures var s, t := After(INITIAL, history), drag[|drag| - 1].translation;
            var moved := Minus(Total(After(s, drag).sent), Total(s.sent));
            && moved == Scale(SENSITIVITY, Minus(t, LastSent(history)))
            && (moved == Scale(SENSITIVITY, t) <==> LastSent(history) == ZERO)
  {
    hide Total, After, Completed;
    var s := After(INITIAL, history);
    LeftOver(history);
    OneCompleted(drag);
    DragsSumExactlyIff(s, drag);
    MotionConserved(s, drag);
  }

  lemma OneCompleted(drag: seq<Event>)
    requires IsTrackpadDrag(drag)
    ensures Completed(drag) == drag[|drag| - 1].translation
  {
    NoneCompleted(drag[..|drag| - 1]);
  }

  lemma {:induction false} NoneCompleted(es: seq<Event>)
    requires forall i :: 0 <= i < |es| ==> !es[i].Ended?
    ensures Completed(es) == ZERO
  {
    if |es| > 0 {
      NoneCompleted(es[..|es| - 1]);
    }
  }

  // ---- Drags that keep their mode ----

  /** The drag in progress has seen a change in trackpad mode. */
  predicate SawTrackpad(es: seq<Event>) {
    |es| > 0 &&
      var e := es[|es| - 1];
      (e.Changed? && e.mode == TrackpadMode) || (!e.Ended? && SawTrackpad(es[..|es| - 1]))
  }

  /** Every drag that saw a trackpad change ended in trackpad mode. */
  predicate ModeKept(es: seq<Event>) {
    forall i :: 0 <= i < |es| && es[i].Ended? && es[i].mode == TouchMode ==> !SawTrackpad(es[..i])
  }

  /** Then every drag begins settled, so every trackpad drag moves the pointer by exactly 1.4 times its translation. */
  lemma {:induction false} ModeKeptSettles(es: seq<Event>)
    requires ModeKept(es)
    ensures !SawTrackpad(es) ==> LastSent(es) == ZERO
  {
    if |es| > 0 {
      var front, last := es[..|es| - 1], |es| - 1;
      assert forall i :: 0 <= i < last ==> front[..i] == es[..i];
      ModeKeptSettles(front);
    }
  }

  lemma ModeKeptExact(history: seq<Event>, drag: seq<Event>)
    requires ModeKept(history) && !SawTrackpad(history) && IsTrackpadDrag(drag)
    ensures var s := After(INITIAL, history);
            Minus(Total(After(s, drag).sent), Total(s.sent)) == Scale(SENSITIVITY, drag[|drag| - 1].translation)
  {
    hide Total, After, Completed, LastSent, Scale;
    ModeKeptSettles(history);
    DragAfterHistory(history, drag);
  }

  /** A drag of 10 points that is sent in trackpad mode but ends in touch mode. */
  function SwitchedDrag(p: Point): seq<Event> {
    [Changed(TrackpadMode, Vec(10.0, 0.0), p, 1.0), Ended(TouchMode, Vec(10.0, 0.0), p)]
  }

  /** The next trackpad drag of 10 points then sends nothing instead of 14. */
  lemma SwitchLosesNextDrag(p: Point)
    ensures var s := After(INITIAL, SwitchedDrag(p));
            After(s, [Ended(TrackpadMode, Vec(10.0, 0.0), p)]).sent == s.sent
    ensures !ModeKept(SwitchedDrag(p)) && LastSent(SwitchedDrag(p)) == Vec(10.0, 0.0)
  {
    var es, e := SwitchedDrag(p), Ended(TrackpadMode, Vec(10.0, 0.0), p);
    var s := After(INITIAL, es);
    assert es[..0] == [] && es[..1] == [es[0]] && [es[0]][..0] == [];
    assert After(INITIAL, [es[0]]) == Step(INITIAL, es[0]);
    assert s == Step(After(INITIAL, es[..1]), es[1]);
    assert s.accumulated == ZERO && s.lastTranslation == Vec(10.0, 0.0);
    assert After(s, [e]) == Step(s, e) by { assert [e][..0] == []; }
    assert SawTrackpad(es[..1]);
    LeftOver(es);
  }

  // ---- The button of a tap ----

  function Count(sent: seq<Input>, i: Input): nat {
    if |sent| == 0 then 0 else Count(sent[..|sent| - 1], i) + if sent[|sent| - 1] == i then 1 else 0
  }

  lemma CountAppend(sent: seq<Input>, x: Input, i: Input)
    ensures Count(sent + [x], i) == Count(sent, i) + if x == i then 1 else 0
  {
    assert (sent + [x])[..|sent|] == sent;
  }

  /** In every run each press has been released or has its own timer pending, and none is released twice. */
  lemma {:induction false} PressesAreReleased(es: seq<Event>)
    ensures var s := After(INITIAL, es); Count(s.sent, LeftDown) == Count(s.sent, LeftUp) + s.timers
  {
    hide IsTap, Scale;
    if |es| > 0 {
      PressesAreReleased(es[..|es| - 1]);
      StepReleases(After(INITIAL, es[..|es| - 1]), es[|es| - 1]);
    }
  }

  lemma StepReleases(s: Drag, e: Event)
    ensures var s' := Step(s, e);
            Count(s'.sent, LeftDown) - Count(s'.sent, LeftUp) - s'.timers
            == Count(s.sent, LeftDown) - Count(s.sent, LeftUp) - s.timers
  {
    hide IsTap, Scale, Count;
    forall x, i ensures Count(s.sent + [x], i) == Count(s.sent, i) + if x == i then 1 else 0 {
      CountAppend(s.sent, x, i);
    }
    if e.Ended? {
      var moved := s.sent + [MoveAbs(e.norm)];
      CountAppend(moved, LeftDown, LeftDown);
      CountAppend(moved, LeftDown, LeftUp);
    }
  }

  // ---- Everything that is sent ----

  /** The taps whose button is still down. */
  function Pending(es: seq<Event>): nat {
    if |es| == 0 then 0 else
      var front, e := es[..|es| - 1], es[|es| - 1];
      match e
      case Ended(TouchMode, t, _) => Pending(front) + if t.dx * t.dx + t.dy * t.dy < 64.0 then 1 else 0
      case TimerFired => if Pending(front) > 0 then Pending(front) - 1 else 0
      case _ => Pending(front)
  }

  lemma {:induction false} TimersPending(es: seq<Event>)
    ensures After(INITIAL, es).timers == Pending(es)
  {
    hide Scale;
    if |es| > 0 {
      TimersPending(es[..|es| - 1]);
    }
  }

  /** What an event after a history makes the client send, from the history alone. */
  function Emitted(history: seq<Event>, e: Event): seq<Input> {
    match e
    case Changed(TrackpadMode, t, _, now) =>
      if now - LastTime(history) >= 0.022 then [MoveRel(Scale(1.4, Minus(t, LastSent(history))))] else []
    case Changed(TouchMode, _, norm, now) =>
      if now - LastTime(history) >= 0.022 then [MoveAbs(norm)] else []
    case Ended(TrackpadMode, t, _) =>
      if t == LastSent(history) then [] else [MoveRel(Scale(1.4, Minus(t, LastSent(history))))]
    case Ended(TouchMode, t, norm) =>
      if t.dx * t.dx + t.dy * t.dy < 64.0 then [MoveAbs(norm), LeftDown] else [MoveAbs(norm)]
    case TimerFired => if Pending(history) > 0 then [LeftUp] else []
  }

  /** Everything sent in a run, in order, without the accumulator, its reset and the stored time. */
  function Trace(es: seq<Event>): seq<Input> {
    if |es| == 0 then [] else Trace(es[..|es| - 1]) + Emitted(es[..|es| - 1], es[|es| - 1])
  }

  /** The drags that ended in touch mode within 8 points of where they began. */
  function Taps(es: seq<Event>): nat {
    if |es| == 0 then 0 else
      var e := es[|es| - 1];
      Taps(es[..|es| - 1])
      + if e.Ended? && e.mode == TouchMode
           && e.translation.dx * e.translation.dx + e.translation.dy * e.translation.dy < 64.0
        then 1 else 0
  }

  /** A press is sent for each tap and for nothing else. */
  lemma {:induction false} PressesAreTaps(es: seq<Event>)
    ensures Count(After(INITIAL, es).sent, LeftDown) == Taps(es)
  {
    hide Scale, Count;
    if |es| == 0 {
      assert Count([], LeftDown) == 0 by { CountNothing(LeftDown); }
    } else {
      var s, e := After(INITIAL, es[..|es| - 1]), es[|es| - 1];
      PressesAreTaps(es[..|es| - 1]);
      forall x ensures Count(s.sent + [x], LeftDown) == Count(s.sent, LeftDown) + if x == LeftDown then 1 else 0 {
        CountAppend(s.sent, x, LeftDown);
      }
      if e.Ended? {
        CountAppend(s.sent + [MoveAbs(e.norm)], LeftDown, LeftDown);
      }
    }
  }

  lemma CountNothing(i: Input)
    ensures Count([], i) == 0
  {
  }

  /** In every run the client sends exactly the trace: the accumulating handlers refine it. */
  lemma {:induction false} SentIsTrace(es: seq<Event>)
    ensures After(INITIAL, es).sent == Trace(es)
  {
    hide Step, Emitted, LastSent, LastTime;
    if |es| > 0 {
      var front, e := es[..|es| - 1], es[|es| - 1];
      SentIsTrace(front);
      TimeKept(front);
      LeftOver(front);
      TimersPending(front);
      StepEmits(After(INITIAL, front), front, e);
    }
  }

  lemma StepEmits(s: Drag, history: seq<Event>, e: Event)
    requires s.lastEventTime == LastTime(history) && LastSent(history) == Minus(s.lastTranslation, s.accumulated)
    requires s.timers == Pending(history)
    ensures Step(s, e).sent == s.sent + Emitted(history, e)
  {
    hide LastSent, LastTime, Pending, Scale, IsTap;
    match e
    case Changed(_, t, _, _) => OwedIsMinus(s, t, LastSent(history));
    case Ended(TrackpadMode, t, _) => OwedIsMinus(s, t, LastSent(history));
    case Ended(TouchMode, t, norm) =>
      TapWithin(t);
      assert (s.sent + [MoveAbs(norm)]) + [LeftDown] == s.sent + [MoveAbs(norm), LeftDown];
    case TimerFired =>
  }

  lemma OwedIsMinus(s: Drag, t: Vec, u: Vec)
    requires u == Minus(s.lastTranslation, s.accumulated)
    ensures var owed := Scale(SENSITIVITY, Plus(s.accumulated, Minus(t, s.lastTranslation)));
            owed == Scale(1.4, Minus(t, u)) && (owed == ZERO <==> t == u)
  {
    assert Plus(s.accumulated, Minus(t, s.lastTranslation)) == Minus(t, u);
    ZeroScale(t, u);
  }

  lemma TapWithin(t: Vec)
    ensures IsTap(t) <==> t.dx * t.dx + t.dy * t.dy < 64.0
  {
  }

  lemma ZeroScale(t: Vec, u: Vec)
    ensures Scale(SENSITIVITY, Minus(t, u)) == Scale(1.4, Minus(t, u))
    ensures Scale(1.4, Minus(t, u)) == ZERO <==> t == u
  {
  }

  // ---- The cursor ----

  /** After the agent's truncation the cursor is less than one pixel off for each event sent. */
  lemma CursorFollowsDrags(es: seq<Event>)
    requires |es| > 0 && EndsTrackpad(es[|es| - 1])
    ensures var moves := RelativeMoves(After(INITIAL, es).sent);
            |moves| > 0 ==>
              StrictlyWithin(Minus(Injected(1.0, moves), Scale(SENSITIVITY, Completed(es))), |moves| as real)
  {
    hide Completed, After, RelativeMoves, Sum, Injected;
    var moves := RelativeMoves(After(INITIAL, es).sent);
    DragsSumExactlyIff(INITIAL, es);
    assert Total([]) == ZERO by { TotalEmpty(); }
    TruncationError(1.0, moves);
  }

  // ---- The rate limit ----

  /** The times at which the change handler sent. */
  function SendTimes(s: Drag, es: seq<Event>): seq<real> {
    if |es| == 0 then [] else
      var front, e := es[..|es| - 1], es[|es| - 1];
      SendTimes(s, front) + if e.Changed? && Due(After(s, front), e.now) then [e.now] else []
  }

  /** Sends from the change handler are at least 0.022 s apart, in both modes and whatever the clock does. */
  lemma {:induction false} SendsSpaced(s: Drag, es: seq<Event>)
    ensures var times := SendTimes(s, es);
            && After(s, es).lastEventTime == (if |times| == 0 then s.lastEventTime else times[|times| - 1])
            && (|times| > 0 ==> times[0] - s.lastEventTime >= MIN_INTERVAL)
            && forall i, j :: 0 <= i <= j < |times| ==> times[j] - times[i] >= Times(j - i, MIN_INTERVAL)
  {
    hide Times, IsTap;
    TimesNext(0, MIN_INTERVAL);
    if |es| > 0 {
      var front, e := es[..|es| - 1], es[|es| - 1];
      SendsSpaced(s, front);
      var earlier, times := SendTimes(s, front), SendTimes(s, es);
      forall i, j | 0 <= i <= j < |times| ensures times[j] - times[i] >= Times(j - i, MIN_INTERVAL) {
        if i < j == |earlier| {
          TimesNext(j - 1 - i, MIN_INTERVAL);
          assert times[j - 1] - times[i] >= Times(j - 1 - i, MIN_INTERVAL);
        }
      }
    }
  }

  /** While a drag changes between times a and b, it sends at most (b - a) / 0.022 + 1 events. */
  lemma DragRate(s: Drag, es: seq<Event>, a: real, b: real)
    requires forall e :: e in es ==> e.Changed? && a <= e.now <= b
    ensures var n := |After(s, es).sent| - |s.sent|;
            0 <= n && (n > 0 ==> Times(n - 1, MIN_INTERVAL) <= b - a)
  {
    hide Times;
    SendsSpaced(s, es);
    SendsCounted(s, es, a, b);
    var times := SendTimes(s, es);
    if |times| > 0 {
      assert times[|times| - 1] in times && times[0] in times;
    }
  }

  lemma {:induction false} SendsCounted(s: Drag, es: seq<Event>, a: real, b: real)
    requires forall e :: e in es ==> e.Changed? && a <= e.now <= b
    ensures |After(s, es).sent| == |s.sent| + |SendTimes(s, es)|
    ensures forall t :: t in SendTimes(s, es) ==> a <= t <= b
  {
    if |es| > 0 {
      SendsCounted(s, es[..|es| - 1], a, b);
    }
  }

  // ---- The gesture ----

  class DragGesture {
    var accumulatedDelta: Vec
    var lastDragTranslation: Vec
    var lastMouseEventTime: real
    var timers: nat
    var sent: seq<Input>

    ghost function State(): Drag
      reads this
    {
      Drag(accumulatedDelta, lastDragTranslation, lastMouseEventTime, timers, sent)
    }

    constructor ()
      ensures State() == INITIAL
    {
      accumulatedDelta, lastDragTranslation, lastMouseEventTime, timers, sent := ZERO, ZERO, 0.0, 0, [];
    }

    method OnChanged(inputMode: InputMode, translation: Vec, norm: Point, now: real)
      modifies this
      ensures State() == Step(old(State()), Changed(inputMode, translation, norm, now))
    {
      if inputMode == TrackpadMode {
        var deltaX := translation.dx - lastDragTranslation.dx;
        var deltaY := translation.dy - lastDragTranslation.dy;
        accumulatedDelta := Vec(accumulatedDelta.dx + deltaX, accumulatedDelta.dy + deltaY);
        lastDragTranslation := translation;
        if now - lastMouseEventTime >= 0.022 {
          sent := sent + [MoveRel(Vec(accumulatedDelta.dx * 1.4, accumulatedDelta.dy * 1.4))];
          accumulatedDelta := ZERO;
          lastMouseEventTime := now;
        }
      } else if now - lastMouseEventTime >= 0.022 {
        sent := sent + [MoveAbs(norm)];
        lastMouseEventTime := now;
      }
    }

    method OnEnded(inputMode: InputMode, translation: Vec, norm: Point)
      modifies this
      ensures State() == Step(old(State()), Ended(inputMode, translation, norm))
    {
      if inputMode == TrackpadMode {
        var deltaX := translation.dx - lastDragTranslation.dx;
        var deltaY := translation.dy - lastDragTranslation.dy;
        var finalDx := (accumulatedDelta.dx + deltaX) * 1.4;
        var finalDy := (accumulatedDelta.dy + deltaY) * 1.4;
        if Abs(finalDx) > 0.0 || Abs(finalDy) > 0.0 {
          sent := sent + [MoveRel(Vec(finalDx, finalDy))];
        }
        lastDragTranslation := ZERO;
        accumulatedDelta := ZERO;
      } else {
        sent := sent + [MoveAbs(norm)];
        if IsTap(translation) {
          sent := sent + [LeftDown];
          timers := timers + 1;
        }
      }
    }

    /** The delayed block that releases the button. */
    method OnTimer()
      modifies this
      ensures State() == Step(old(State()), TimerFired)
    {
      if timers > 0 {
        timers := timers - 1;
        sent := sent + [LeftUp];
      }
    }
  }
}
