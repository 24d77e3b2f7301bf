/** The interaction controller: pointer and touch events move a single
    charge value by mapping the pointer's horizontal position onto the
    track, while a dragging flag decides whether moves are followed.
    Coordinates are whole pixels. */
module DragSlider {

  import opened Options

  const DEFAULT_CHARGE := 72

  /** The on-screen bounds of the track, read afresh for every event. */
  datatype Rect = Rect(left: int, width: int)

  /** `dragging` is the synchronous flag the handlers read. */
  datatype State = State(charge: int, dragging: bool)

  datatype Event =
    | MouseDown(x: int)
    | MouseMove(x: int)
    | TouchStart(touch: Option<int>)
    | TouchMove(touch: Option<int>)
    | MouseUp
    | TouchEnd

  /** One delivered event together with the track's bounds at that moment;
      `None` when the track element is not mounted. */
  datatype Input = Input(container: Option<Rect>, event: Event)

  predicate InRange(charge: int) {
    0 <= charge <= 100
  }

  function Min(a: int, b: int): int { if a <= b then a else b }

  function Max(a: int, b: int): int { if a >= b then a else b }

  /** Math.round of the quotient n / d: the nearest integer, a half rounding up. */
  function RoundHalfUp(n: int, d: int): (k: int)
    requires d > 0
    ensures 2 * d * k - d <= 2 * n < 2 * d * k + d
  {
    var k := (2 * n + d) / (2 * d);
    assert 2 * n + d == 2 * d * k + (2 * n + d) % (2 * d);
    k
  }

  lemma MulCancelLt(d: int, a: int, b: int)
    requires d > 0
    requires d * a < d * b
    ensures a < b
  {
    assert d * b - d * a == d * (b - a);
  }

  /** The rounding is determined by its bracket: no other integer lies
      within half of n / d on the same side. */
  lemma RoundHalfUpUnique(n: int, d: int, k: int)
    requires d > 0
    requires 2 * d * k - d <= 2 * n < 2 * d * k + d
    ensures k == RoundHalfUp(n, d)
  {
    var j := RoundHalfUp(n, d);
    MulCancelLt(2 * d, k - 1, j);
    MulCancelLt(2 * d, j - 1, k);
  }

  /** The pointer's offset into the track, clamped to [0, width]. */
  function Offset(clientX: int, rect: Rect): (x: int)
    ensures rect.width >= 0 ==> 0 <= x <= rect.width
    ensures rect.width <= 0 ==> x == 0
    ensures clientX <= rect.left ==> x == 0
    ensures 0 <= clientX - rect.left <= rect.width ==> x == clientX - rect.left
    ensures rect.width >= 0 && clientX >= rect.left + rect.width ==> x == rect.width
  {
    Max(0, Min(clientX - rect.left, rect.width))
  }

  /** The percentage for a pointer at `clientX` over `rect`. A zero width is
      replaced by 1, so the offset, and the charge, is 0. A negative width
      also clamps the offset to 0, and 0 divided by a negative width is -0,
      which rounds, compares and displays as 0. */
  function ChargeAt(clientX: int, rect: Rect): (p: int)
    ensures InRange(p)
    ensures clientX <= rect.left ==> p == 0
    ensures rect.width <= 0 ==> p == 0
    ensures rect.width > 0 && clientX >= rect.left + rect.width ==> p == 100
    ensures rect.width > 0 ==>
      2 * rect.width * p - rect.width <= 200 * Offset(clientX, rect) < 2 * rect.width * p + rect.width
  {
    var x := Offset(clientX, rect);
    var width := if rect.width == 0 then 1 else rect.width;
    if width > 0 then
      ScaledRoundBounds(x, width);
      RoundHalfUp(100 * x, width)
    else 0
  }

  /** Rounding 100 * x / w for an offset x within [0, w] gives a percentage,
      0 at the left edge and 100 at the right edge. */
  lemma ScaledRoundBounds(x: int, w: int)
    requires w > 0 && 0 <= x <= w
    ensures InRange(RoundHalfUp(100 * x, w))
    ensures x == 0 ==> RoundHalfUp(100 * x, w) == 0
    ensures x == w ==> RoundHalfUp(100 * x, w) == 100
  {
    var p := RoundHalfUp(100 * x, w);
    MulCancelLt(2 * w, p, 101);
    MulCancelLt(2 * w, -1, p);
    if x == 0 {
      MulCancelLt(2 * w, p, 1);
    }
    if x == w {
      MulCancelLt(2 * w, 99, p);
    }
  }

  /** Moving the pointer right never lowers the charge. */
  lemma ChargeAtMonotone(x1: int, x2: int, rect: Rect)
    requires x1 <= x2
    ensures ChargeAt(x1, rect) <= ChargeAt(x2, rect)
  {
    if rect.width > 0 {
      var w, p1, p2 := rect.width, ChargeAt(x1, rect), ChargeAt(x2, rect);
      var o1, o2 := Offset(x1, rect), Offset(x2, rect);
      assert o1 <= o2;
      assert 2 * w * p1 - w <= 200 * o1;
      assert 200 * o2 < 2 * w * p2 + w;
      assert 2 * w * (p1 - 1) < 2 * w * p2 by {
        assert 2 * w * (p1 - 1) == 2 * w * p1 - 2 * w;
      }
      MulCancelLt(2 * w, p1 - 1, p2);
    }
  }

  /** One position update: a missing track leaves the charge as it was. */
  function UpdateFromPosition(charge: int, clientX: int, container: Option<Rect>): (c: int)
    ensures container.None? ==> c == charge
    ensures container.Some? ==> InRange(c)
  {
    match container
    case None => charge
    case Some(rect) => ChargeAt(clientX, rect)
  }

  /** Repeating an update with the same coordinate and bounds changes nothing. */
  lemma UpdateIdempotent(charge: int, clientX: int, container: Option<Rect>)
    ensures UpdateFromPosition(UpdateFromPosition(charge, clientX, container), clientX, container)
         == UpdateFromPosition(charge, clientX, container)
  {
  }

  /** The mounted component's first state: the given charge, taken as is,
      and no drag in progress. */
  function Init(initialCharge: int): (s: State)
    ensures s.charge == initialCharge && !s.dragging
  {
    State(initialCharge, false)
  }

  /** The horizontal coordinate an event carries, if any. */
  function Pointer(e: Event): Option<int>
  {
    match e
    case MouseDown(x) => Some(x)
    case MouseMove(x) => Some(x)
    case TouchStart(t) => t
    case TouchMove(t) => t
    case MouseUp => None
    case TouchEnd => None
  }

  /** A press that starts a drag: a mouse-down, or a touch-start with a touch point. */
  predicate IsPress(e: Event) {
    e.MouseDown? || (e.TouchStart? && e.touch.Some?)
  }

  predicate IsMove(e: Event) {
    e.MouseMove? || e.TouchMove?
  }

  predicate IsRelease(e: Event) {
    e.MouseUp? || e.TouchEnd?
  }

  /** The event handlers. The contract describes the transition without the
      case analysis: the drag flag is raised by a press and lowered by a
      release; the charge follows the pointer on a press, or on a move during
      a drag, whenever the track and a coordinate are present, and is left
      alone otherwise. */
  function Step(s: State, container: Option<Rect>, e: Event): (t: State)
    ensures t.dragging <==> IsPress(e) || (s.dragging && !IsRelease(e))
    ensures (IsPress(e) || (s.dragging && IsMove(e))) && container.Some? && Pointer(e).Some?
        ==> t.charge == ChargeAt(Pointer(e).value, container.value)
    ensures t.charge != s.charge
        ==> container.Some? && Pointer(e).Some? && (IsPress(e) || (s.dragging && IsMove(e)))
  {
    match e
    case MouseDown(x) =>
      State(UpdateFromPosition(s.charge, x, container), true)
    case MouseMove(x) =>
      if !s.dragging then s
      else s.(charge := UpdateFromPosition(s.charge, x, container))
    case TouchStart(touch) =>
      (match touch
       case None => s
       case Some(x) => State(UpdateFromPosition(s.charge, x, container), true))
    case TouchMove(touch) =>
      if !s.dragging then s
      else
        (match touch
         case None => s
         case Some(x) => s.(charge := UpdateFromPosition(s.charge, x, container)))
    case MouseUp => s.(dragging := false)
    case TouchEnd => s.(dragging := false)
  }

  /** Handling the same event twice in a row is the same as handling it once. */
  lemma StepIdempotent(s: State, container: Option<Rect>, e: Event)
    ensures Step(Step(s, container, e), container, e) == Step(s, container, e)
  {
  }

  /** Events delivered in order, one handler call each. */
  function Run(s: State, inputs: seq<Input>): (t: State)
    ensures |inputs| == 0 ==> t == s
    ensures |inputs| > 0 && IsRelease(inputs[|inputs| - 1].event) ==> !t.dragging
    ensures |inputs| > 0 && IsPress(inputs[|inputs| - 1].event) ==> t.dragging
    decreases |inputs|
  {
    if |inputs| == 0 then s
    else Run(Step(s, inputs[0].container, inputs[0].event), inputs[1..])
  }

  /** The charge stays within 0..100 over any sequence of events, provided
      it starts there; the initial value itself is not clamped. */
  lemma {:induction false} RunKeepsChargeInRange(s: State, inputs: seq<Input>)
    requires InRange(s.charge)
    ensures InRange(Run(s, inputs).charge)
    decreases |inputs|
  {
    if |inputs| > 0 {
      var t := Step(s, inputs[0].container, inputs[0].event);
      if t.charge != s.charge {
        assert InRange(t.charge);
      }
      RunKeepsChargeInRange(t, inputs[1..]);
    }
  }

  /** Outside a drag, everything but a press is ignored: a run without
      presses leaves the state exactly as it was. */
  lemma {:induction false} IdleIgnoresAllButPresses(s: State, inputs: seq<Input>)
    requires !s.dragging
    requires forall i :: 0 <= i < |inputs| ==> !IsPress(inputs[i].event)
    ensures Run(s, inputs) == s
    decreases |inputs|
  {
    if |inputs| > 0 {
      assert Step(s, inputs[0].container, inputs[0].event) == s;
      IdleIgnoresAllButPresses(s, inputs[1..]);
    }
  }

  /** After a release, anywhere and whatever the bounds, further moves are
      ignored until the next press. */
  lemma ReleaseEndsDrag(s: State, container: Option<Rect>, release: Event, inputs: seq<Input>)
    requires IsRelease(release)
    requires forall i :: 0 <= i < |inputs| ==> !IsPress(inputs[i].event)
    ensures Run(s, [Input(container, release)] + inputs) == s.(dragging := false)
  {
    var both := [Input(container, release)] + inputs;
    assert both[1..] == inputs;
    IdleIgnoresAllButPresses(s.(dragging := false), inputs);
  }

  /** From the default start, charge 72 and idle, the charge stays within
      0..100 whatever events follow. */
  lemma DefaultRunInRange(inputs: seq<Input>)
    ensures InRange(Run(Init(DEFAULT_CHARGE), inputs).charge)
  {
    RunKeepsChargeInRange(Init(DEFAULT_CHARGE), inputs);
  }

}
