/**
 The V6 interaction handler: the input position and velocity that drive
 the particles, the set of touches currently down (in the order they went
 down) with one of them primary, the on-screen puck's visibility and state
 class, a window of the ten most recent input latencies, and the event
 callbacks.

 Each browser event is one step from a handler state to the next, with
 the events it emits to the registered callbacks. The clock reading
 (`performance.now()`) is an input of every step; coordinates and times
 are exact reals.
 */
module InteractionHandler {
  import opened Wrappers
  import opened OrderedMap
  import Callbacks

  datatype Config = Config(
    enableMouse: bool,
    enableTouch: bool,
    inputLatencyThreshold: real,
    mobileInputLatencyThreshold: real,
    enableUniversalPuck: bool,
    enableVelocitySmoothing: bool,
    velocitySmoothingFactor: real)

  /** The options from the keys the caller gave: a given key wins over its default, as the spread comes last. */
  function MakeConfig(enableMouse: Option<bool>, enableTouch: Option<bool>, inputLatencyThreshold: Option<real>,
                      mobileInputLatencyThreshold: Option<real>, enableUniversalPuck: Option<bool>,
                      enableVelocitySmoothing: Option<bool>, velocitySmoothingFactor: Option<real>): (c: Config)
    ensures enableMouse.None? ==> c.enableMouse
    ensures enableTouch.None? ==> c.enableTouch
    ensures inputLatencyThreshold.None? ==> c.inputLatencyThreshold == 16.0
    ensures mobileInputLatencyThreshold.None? ==> c.mobileInputLatencyThreshold == 33.0
    ensures enableUniversalPuck.None? ==> c.enableUniversalPuck
    ensures enableVelocitySmoothing.None? ==> c.enableVelocitySmoothing
    ensures velocitySmoothingFactor.None? ==> c.velocitySmoothingFactor == 0.7
    ensures enableMouse.Some? ==> c.enableMouse == enableMouse.value
    ensures enableTouch.Some? ==> c.enableTouch == enableTouch.value
    ensures inputLatencyThreshold.Some? ==> c.inputLatencyThreshold == inputLatencyThreshold.value
    ensures mobileInputLatencyThreshold.Some? ==> c.mobileInputLatencyThreshold == mobileInputLatencyThreshold.value
    ensures enableUniversalPuck.Some? ==> c.enableUniversalPuck == enableUniversalPuck.value
    ensures enableVelocitySmoothing.Some? ==> c.enableVelocitySmoothing == enableVelocitySmoothing.value
    ensures velocitySmoothingFactor.Some? ==> c.velocitySmoothingFactor == velocitySmoothingFactor.value
  {
    Config(enableMouse.GetOr(true), enableTouch.GetOr(true), inputLatencyThreshold.GetOr(16.0),
      mobileInputLatencyThreshold.GetOr(33.0), enableUniversalPuck.GetOr(true),
      enableVelocitySmoothing.GetOr(true), velocitySmoothingFactor.GetOr(0.7))
  }

  const MaxLatencyHistory: nat := 10

  const EventNames: seq<string> := ["start", "move", "end", "velocityChange"]

  type CallbackId = nat

  /** The puck's state classes. */
  datatype PuckState = Dragging | Active | Inactive

  datatype Pointer = MouseInput | TouchInput

  /** One changed touch of a touch event. */
  datatype Touch = Touch(identifier: int, clientX: real, clientY: real)

  /** What the handler remembers of a touch that is down. */
  datatype TouchInfo = TouchInfo(id: int, x: real, y: real, startTime: real)

  /** An event handed to the callbacks registered for its name. */
  datatype Emitted =
    | Start(pointer: Pointer, x: real, y: real, touchId: Option<int>)
    | Move(pointer: Pointer, x: real, y: real, velocityX: real, velocityY: real, touchId: Option<int>)
    | End(pointer: Pointer, x: real, y: real)
    | VelocityChange(velocityX: real, velocityY: real)

  /**
   The handler. `hasPuck` is whether the puck element was created;
   `puckAt` is where it was last placed (`None` while it still sits at its
   initial centred position).
   */
  datatype Handler = Handler(
    config: Config,
    isMobile: bool,
    hasPuck: bool,
    isActive: bool,
    x: real, y: real,
    prevX: real, prevY: real,
    velocityX: real, velocityY: real,
    lastUpdateTime: real,
    activeTouches: Entries<int, TouchInfo>,
    primaryTouchId: Option<int>,
    puckVisible: bool,
    puckClasses: set<PuckState>,
    puckAt: Option<(real, real)>,
    callbacks: Callbacks.Registry<CallbackId>,
    latencyHistory: seq<real>)

  /** The constructor: `touchDetected` is `'ontouchstart' in window || maxTouchPoints > 0`. */
  function Init(config: Config, touchDetected: bool, now: real): (h: Handler)
    ensures !h.isActive && h.activeTouches == [] && h.primaryTouchId.None?
    ensures h.hasPuck == config.enableUniversalPuck
    ensures Keys(h.callbacks) == EventNames
    ensures forall i | 0 <= i < |EventNames| :: Callbacks.Listeners(h.callbacks, EventNames[i]) == []
  {
    forall i | 0 <= i < |EventNames| ensures Callbacks.Listeners(Callbacks.Empty<CallbackId>(EventNames), EventNames[i]) == [] {
      Callbacks.EmptyListeners<CallbackId>(EventNames, EventNames[i]);
    }
    Handler(config, touchDetected, config.enableUniversalPuck, false, 0.0, 0.0, 0.0, 0.0, 0.0, 0.0, now,
      [], None, false, {}, None, Callbacks.Empty(EventNames), [])
  }

  // ---------------------------------------------------------------------
  // Position, velocity and latency

  /** `updateLatencyTracking`: append, and drop the oldest entry once there are more than ten. */
  function PushLatency(history: seq<real>, latency: real): (r: seq<real>)
    ensures |history| <= MaxLatencyHistory ==> |r| <= MaxLatencyHistory
    ensures |r| > 0 && r[|r| - 1] == latency
    ensures |history| < MaxLatencyHistory ==> r == history + [latency]
    ensures |history| == MaxLatencyHistory ==> r == history[1..] + [latency]
  {
    var pushed := history + [latency];
    if |pushed| > MaxLatencyHistory then pushed[1..] else pushed
  }

  /** `updatePosition`: the old position becomes the previous one, and the time since the last update is recorded. */
  function UpdatePosition(s: Handler, x: real, y: real, now: real): (r: Handler)
    ensures r.prevX == s.x && r.prevY == s.y && r.x == x && r.y == y
    ensures r.lastUpdateTime == now
    ensures r.latencyHistory == PushLatency(s.latencyHistory, now - s.lastUpdateTime)
    ensures r == s.(prevX := s.x, prevY := s.y, x := x, y := y, lastUpdateTime := now, latencyHistory := r.latencyHistory)
  {
    s.(prevX := s.x, prevY := s.y, x := x, y := y, lastUpdateTime := now,
       latencyHistory := PushLatency(s.latencyHistory, now - s.lastUpdateTime))
  }

  /** `updateVelocity`: the displacement since the previous position, blended with the old velocity when smoothing is on. */
  function UpdateVelocity(s: Handler): (r: (Handler, Emitted))
    ensures r.1 == VelocityChange(r.0.velocityX, r.0.velocityY)
    ensures r.0 == s.(velocityX := r.0.velocityX, velocityY := r.0.velocityY)
    ensures !s.config.enableVelocitySmoothing ==> r.0.velocityX == s.x - s.prevX && r.0.velocityY == s.y - s.prevY
  {
    var dx := s.x - s.prevX;
    var dy := s.y - s.prevY;
    var f := s.config.velocitySmoothingFactor;
    var s1 :=
      if s.config.enableVelocitySmoothing then
        s.(velocityX := s.velocityX * f + dx * (1.0 - f), velocityY := s.velocityY * f + dy * (1.0 - f))
      else s.(velocityX := dx, velocityY := dy);
    (s1, VelocityChange(s1.velocityX, s1.velocityY))
  }

  function Sum(h: seq<real>): real {
    if |h| == 0 then 0.0 else h[0] + Sum(h[1..])
  }

  /** `getAverageLatency`: 0 with no history. */
  function AverageLatency(h: seq<real>): (avg: real)
    ensures |h| == 0 ==> avg == 0.0
    ensures |h| > 0 ==> avg * |h| as real == Sum(h)
  {
    if |h| == 0 then 0.0 else Sum(h) / |h| as real
  }

  /** The threshold `isLatencyAcceptable` compares against: the mobile one on a mobile device. */
  function Threshold(s: Handler): real {
    if s.isMobile then s.config.mobileInputLatencyThreshold else s.config.inputLatencyThreshold
  }

  /**
   `isLatencyAcceptable`: the average against the threshold. An acceptable
   history holds at least one latency within the threshold.
   */
  predicate IsLatencyAcceptable(s: Handler)
    ensures IsLatencyAcceptable(s) && |s.latencyHistory| > 0 ==>
      exists i :: 0 <= i < |s.latencyHistory| && s.latencyHistory[i] <= Threshold(s)
  {
    SumAbove(s.latencyHistory, Threshold(s));
    AverageLatency(s.latencyHistory) <= Threshold(s)
  }

  /** When every latency exceeds `t`, so does their total against `t` times their count. */
  lemma {:induction false} SumAbove(h: seq<real>, t: real)
    ensures |h| > 0 && (forall i :: 0 <= i < |h| ==> h[i] > t) ==> Sum(h) > |h| as real * t
    decreases |h|
  {
    if |h| > 0 && (forall i :: 0 <= i < |h| ==> h[i] > t) {
      assert forall i :: 0 <= i < |h[1..]| ==> h[1..][i] == h[i + 1];
      SumAbove(h[1..], t);
      if |h| == 1 {
        assert Sum(h[1..]) == 0.0;
      }
    }
  }

  // ---------------------------------------------------------------------
  // The puck

  /** `showPuck`: only the puck's visibility changes, and only when there is a puck. */
  function ShowPuck(s: Handler): (r: Handler)
    ensures r == s.(puckVisible := r.puckVisible)
    ensures r.puckVisible <==> s.hasPuck || s.puckVisible
  {
    if s.hasPuck then s.(puckVisible := true) else s
  }

  /** `hidePuck` */
  function HidePuck(s: Handler): (r: Handler)
    ensures r == s.(puckVisible := r.puckVisible)
    ensures r.puckVisible <==> !s.hasPuck && s.puckVisible
  {
    if s.hasPuck then s.(puckVisible := false) else s
  }

  function UpdatePuckPosition(s: Handler): Handler {
    if s.hasPuck && s.puckVisible then s.(puckAt := Some((s.x, s.y))) else s
  }

  /** `setPuckState`: the state classes are replaced by the new one ("inactive" adds none). */
  function SetPuckState(s: Handler, state: PuckState): (r: Handler)
    ensures r == s.(puckClasses := r.puckClasses)
    ensures !s.hasPuck ==> r == s
    ensures s.hasPuck ==> r.puckClasses == if state == Inactive then {} else {state}
  {
    if !s.hasPuck then s
    else s.(puckClasses := if state == Inactive then {} else {state})
  }

  // ---------------------------------------------------------------------
  // Mouse

  /** `handleMouseEnter`: active at the pointer, the puck shown, one `start` there. */
  function MouseEnter(s: Handler, x: real, y: real, now: real): (r: (Handler, seq<Emitted>))
    ensures r.0.isActive && r.0.x == x && r.0.y == y
    ensures r.0.puckVisible <==> s.hasPuck || s.puckVisible
    ensures r.0.activeTouches == s.activeTouches && r.0.primaryTouchId == s.primaryTouchId
    ensures r.1 == [Start(MouseInput, x, y, None)]
  {
    var s1 := UpdatePosition(ShowPuck(s).(isActive := true), x, y, now);
    (s1, [Start(MouseInput, s1.x, s1.y, None)])
  }

  /** `handleMouseLeave`: inactive where the pointer was, the puck hidden, one `end` there. */
  function MouseLeave(s: Handler): (r: (Handler, seq<Emitted>))
    ensures !r.0.isActive && r.0.x == s.x && r.0.y == s.y
    ensures r.0.puckVisible <==> !s.hasPuck && s.puckVisible
    ensures r.0.activeTouches == s.activeTouches && r.0.primaryTouchId == s.primaryTouchId
    ensures r.1 == [End(MouseInput, s.x, s.y)]
  {
    var s1 := HidePuck(s.(isActive := false));
    (s1, [End(MouseInput, s1.x, s1.y)])
  }

  /** `handleMouseMove`: ignored while inactive. */
  function MouseMove(s: Handler, x: real, y: real, now: real): (r: (Handler, seq<Emitted>))
    ensures !s.isActive ==> r == (s, [])
  {
    if !s.isActive then (s, [])
    else
      var (s1, v) := UpdateVelocity(UpdatePosition(s, x, y, now));
      var s2 := UpdatePuckPosition(s1);
      (s2, [v, Move(MouseInput, s2.x, s2.y, s2.velocityX, s2.velocityY, None)])
  }

  // ---------------------------------------------------------------------
  // Touch

  /** `!this.primaryTouchId`: no primary, or a primary whose identifier is 0. */
  predicate NoPrimary(p: Option<int>) {
    p.None? || p.value == 0
  }

  function StartOne(s: Handler, t: Touch, now: real): (r: (Handler, seq<Emitted>))
    ensures |r.1| <= 1 && forall e | e in r.1 :: e.Start? && e.pointer == TouchInput
  {
    var s1 := s.(activeTouches := Put(s.activeTouches, t.identifier, TouchInfo(t.identifier, t.clientX, t.clientY, now)));
    if NoPrimary(s1.primaryTouchId) then
      var s2 := ShowPuck(s1.(primaryTouchId := Some(t.identifier), isActive := true));
      var s3 := SetPuckState(UpdatePosition(s2, t.clientX, t.clientY, now), Dragging);
      (s3, [Start(TouchInput, s3.x, s3.y, Some(t.identifier))])
    else (s1, [])
  }

  /** `handleTouchStart`: each changed touch in turn, at most one touch `start` for each. */
  function TouchStart(s: Handler, touches: seq<Touch>, now: real): (r: (Handler, seq<Emitted>))
    ensures |r.1| <= |touches|
    ensures forall e | e in r.1 :: e.Start? && e.pointer == TouchInput
    decreases |touches|
  {
    if |touches| == 0 then (s, [])
    else
      var (s1, e1) := StartOne(s, touches[0], now);
      var (s2, e2) := TouchStart(s1, touches[1..], now);
      (s2, e1 + e2)
  }

  function MoveOne(s: Handler, t: Touch, now: real): (r: (Handler, seq<Emitted>))
    ensures Keys(r.0.activeTouches) == Keys(s.activeTouches) && r.0.primaryTouchId == s.primaryTouchId
    ensures |r.1| <= 2
  {
    match Get(s.activeTouches, t.identifier)
    case None => (s, [])
    case Some(info) =>
      var s1 := s.(activeTouches := Put(s.activeTouches, t.identifier, info.(x := t.clientX, y := t.clientY)));
      if s.primaryTouchId == Some(t.identifier) then
        var (s2, v) := UpdateVelocity(UpdatePosition(s1, t.clientX, t.clientY, now));
        var s3 := UpdatePuckPosition(s2);
        (s3, [v, Move(TouchInput, s3.x, s3.y, s3.velocityX, s3.velocityY, Some(t.identifier))])
      else (s1, [])
  }

  /**
   `handleTouchMove`: each changed touch in turn. A move brings no touch
   down or up and keeps the primary touch; each touch emits at most a
   velocity change and a `move`.
   */
  function TouchMove(s: Handler, touches: seq<Touch>, now: real): (r: (Handler, seq<Emitted>))
    ensures Keys(r.0.activeTouches) == Keys(s.activeTouches) && r.0.primaryTouchId == s.primaryTouchId
    ensures |r.1| <= 2 * |touches|
    decreases |touches|
  {
    if |touches| == 0 then (s, [])
    else
      var (s1, e1) := MoveOne(s, touches[0], now);
      var (s2, e2) := TouchMove(s1, touches[1..], now);
      (s2, e1 + e2)
  }

  function EndOne(s: Handler, t: Touch, now: real): (r: (Handler, seq<Emitted>))
    ensures |r.1| <= 1 && forall e | e in r.1 :: e.End? && e.pointer == TouchInput
  {
    if t.identifier !in Keys(s.activeTouches) then (s, [])
    else
      var s1 := s.(activeTouches := Delete(s.activeTouches, t.identifier));
      if s.primaryTouchId == Some(t.identifier) then
        if |s1.activeTouches| > 0 then
          var (id, info) := s1.activeTouches[0];
          (UpdatePosition(s1.(primaryTouchId := Some(id)), info.x, info.y, now), [])
        else
          var s2 := SetPuckState(HidePuck(s1.(primaryTouchId := None, isActive := false)), Inactive);
          (s2, [End(TouchInput, s2.x, s2.y)])
      else (s1, [])
  }

  /** `handleTouchEnd` (also bound to touchcancel): each changed touch in turn, at most one touch `end` for each. */
  function TouchEnd(s: Handler, touches: seq<Touch>, now: real): (r: (Handler, seq<Emitted>))
    ensures |r.1| <= |touches|
    ensures forall e | e in r.1 :: e.End? && e.pointer == TouchInput
    decreases |touches|
  {
    if |touches| == 0 then (s, [])
    else
      var (s1, e1) := EndOne(s, touches[0], now);
      var (s2, e2) := TouchEnd(s1, touches[1..], now);
      (s2, e1 + e2)
  }

  // ---------------------------------------------------------------------
  // Listener attachment and callbacks

  datatype InputEvent =
    | MouseEnterEvent(x: real, y: real)
    | MouseLeaveEvent
    | MouseMoveEvent(x: real, y: real)
    | MouseDownEvent
    | MouseUpEvent
    | TouchStartEvent(touches: seq<Touch>)
    | TouchMoveEvent(touches: seq<Touch>)
    | TouchEndEvent(touches: seq<Touch>)

  predicate IsMouseEvent(e: InputEvent) {
    e.MouseEnterEvent? || e.MouseLeaveEvent? || e.MouseMoveEvent? || e.MouseDownEvent? || e.MouseUpEvent?
  }

  /**
   `attachEventListeners`: touch listeners are attached on a touch device
   with touch enabled, mouse listeners on any other device with the mouse
   enabled; an event without a listener does nothing.
   */
  function Dispatch(s: Handler, e: InputEvent, now: real): (r: (Handler, seq<Emitted>))
    ensures IsMouseEvent(e) && (s.isMobile || !s.config.enableMouse) ==> r == (s, [])
    ensures !IsMouseEvent(e) && !(s.isMobile && s.config.enableTouch) ==> r == (s, [])
  {
    if IsMouseEvent(e) then
      if s.isMobile || !s.config.enableMouse then (s, [])
      else
        match e
        case MouseEnterEvent(x, y) => MouseEnter(s, x, y, now)
        case MouseLeaveEvent => MouseLeave(s)
        case MouseMoveEvent(x, y) => MouseMove(s, x, y, now)
        case MouseDownEvent => (SetPuckState(s, Dragging), [])
        case MouseUpEvent => (SetPuckState(s, Active), [])
    else if !(s.isMobile && s.config.enableTouch) then (s, [])
    else
      match e
      case TouchStartEvent(ts) => TouchStart(s, ts, now)
      case TouchMoveEvent(ts) => TouchMove(s, ts, now)
      case TouchEndEvent(ts) => TouchEnd(s, ts, now)
  }

  /** `on`: only the registry changes, and a known event gets `cb` at the end of its list; an inherited name throws. */
  function On(s: Handler, event: string, cb: CallbackId): (r: Result<Handler, string>)
    ensures r.Failure? <==> Callbacks.FindsInherited(s.callbacks, event)
    ensures r.Success? ==> r.value == s.(callbacks := r.value.callbacks)
    ensures r.Success? && event in Keys(s.callbacks) ==>
      Callbacks.Listeners(r.value.callbacks, event) == Callbacks.Listeners(s.callbacks, event) + [cb]
  {
    Callbacks.OnListeners(s.callbacks, event, cb, event);
    match Callbacks.On(s.callbacks, event, cb)
    case Success(callbacks) => Success(s.(callbacks := callbacks))
    case Failure(e) => Failure(e)
  }

  /** `off`: only the registry changes, and the event loses the first registration of `cb`; an inherited name throws. */
  function Off(s: Handler, event: string, cb: CallbackId): (r: Result<Handler, string>)
    ensures r.Failure? <==> Callbacks.FindsInherited(s.callbacks, event)
    ensures r.Success? ==> r.value == s.(callbacks := r.value.callbacks)
    ensures r.Success? ==>
      Callbacks.Listeners(r.value.callbacks, event) == Callbacks.RemoveFirst(Callbacks.Listeners(s.callbacks, event), cb)
  {
    Callbacks.OffListeners(s.callbacks, event, cb, event);
    match Callbacks.Off(s.callbacks, event, cb)
    case Success(callbacks) => Success(s.(callbacks := callbacks))
    case Failure(e) => Failure(e)
  }

  // ---------------------------------------------------------------------
  // Properties

  /**
   `on` and `off` ignore names other than the four events, except the
   inherited members of a plain object, on which both throw; on one of the
   four events, `on` appends and `off` removes only the first registration.
   */
  lemma CallbackRegistration(s: Handler, event: string, cb: CallbackId)
    requires Keys(s.callbacks) == EventNames
    ensures event !in EventNames && event !in Callbacks.InheritedNames ==>
            On(s, event, cb) == Success(s) && Off(s, event, cb) == Success(s)
    ensures event in Callbacks.InheritedNames ==> On(s, event, cb).Failure? && Off(s, event, cb).Failure?
    ensures event in EventNames ==>
            && On(s, event, cb).Success? && Off(s, event, cb).Success?
            && Callbacks.Listeners(On(s, event, cb).value.callbacks, event) == Callbacks.Listeners(s.callbacks, event) + [cb]
            && Callbacks.Listeners(Off(s, event, cb).value.callbacks, event)
               == Callbacks.RemoveFirst(Callbacks.Listeners(s.callbacks, event), cb)
  {
    if event in Callbacks.InheritedNames {
      assert event !in EventNames;
    }
  }

  /** One touch coming down keeps the touches that were down and adds its own. */
  lemma StartOneKeys(s: Handler, t: Touch, now: real)
    ensures var after := Keys(StartOne(s, t, now).0.activeTouches);
      && (forall k :: k in Keys(s.activeTouches) ==> k in after)
      && t.identifier in after
  {
    var m := Put(s.activeTouches, t.identifier, TouchInfo(t.identifier, t.clientX, t.clientY, now));
    assert StartOne(s, t, now).0.activeTouches == m;
  }

  lemma TouchStartUnfold(s: Handler, touches: seq<Touch>, now: real)
    requires |touches| > 0
    ensures TouchStart(s, touches, now).0 == TouchStart(StartOne(s, touches[0], now).0, touches[1..], now).0
  {
  }

  /** Every touch of a touchstart is down afterwards. */
  lemma {:induction false} TouchStartAddsAll(s: Handler, touches: seq<Touch>, now: real)
    ensures forall k :: k in Keys(s.activeTouches) ==> k in Keys(TouchStart(s, touches, now).0.activeTouches)
    ensures forall i :: 0 <= i < |touches| ==> touches[i].identifier in Keys(TouchStart(s, touches, now).0.activeTouches)
    decreases |touches|
  {
    if |touches| > 0 {
      var s1 := StartOne(s, touches[0], now).0;
      StartOneKeys(s, touches[0], now);
      TouchStartAddsAll(s1, touches[1..], now);
      TouchStartUnfold(s, touches, now);
      var after := Keys(TouchStart(s, touches, now).0.activeTouches);
      assert after == Keys(TouchStart(s1, touches[1..], now).0.activeTouches);
      forall i | 1 <= i < |touches| ensures touches[i].identifier in after {
        assert touches[1..][i - 1] == touches[i];
      }
    }
  }

  lemma DeleteKeys<V>(m: Entries<int, V>, key: int, k: int)
    requires k !in Keys(m) || k == key
    ensures k !in Keys(Delete(m, key))
  {
  }

  /** One touch lifting removes it and brings no touch down. */
  lemma EndOneKeys(s: Handler, t: Touch, now: real)
    ensures forall k :: (k !in Keys(s.activeTouches) || k == t.identifier) ==>
      k !in Keys(EndOne(s, t, now).0.activeTouches)
  {
    var s1 := EndOne(s, t, now).0;
    if t.identifier in Keys(s.activeTouches) {
      assert s1.activeTouches == Delete(s.activeTouches, t.identifier);
      forall k | k !in Keys(s.activeTouches) || k == t.identifier
        ensures k !in Keys(s1.activeTouches)
      {
        DeleteKeys(s.activeTouches, t.identifier, k);
      }
    }
  }

  lemma TouchEndUnfold(s: Handler, touches: seq<Touch>, now: real)
    requires |touches| > 0
    ensures TouchEnd(s, touches, now).0 == TouchEnd(EndOne(s, touches[0], now).0, touches[1..], now).0
  {
  }

  /** Every touch of a touchend that was down is no longer down, and no touch comes down. */
  lemma {:induction false} TouchEndRemovesAll(s: Handler, touches: seq<Touch>, now: real)
    ensures forall k :: k !in Keys(s.activeTouches) ==> k !in Keys(TouchEnd(s, touches, now).0.activeTouches)
    ensures forall i :: 0 <= i < |touches| ==> touches[i].identifier !in Keys(TouchEnd(s, touches, now).0.activeTouches)
    decreases |touches|
  {
    if |touches| > 0 {
      var s1 := EndOne(s, touches[0], now).0;
      EndOneKeys(s, touches[0], now);
      TouchEndRemovesAll(s1, touches[1..], now);
      TouchEndUnfold(s, touches, now);
      var after := Keys(TouchEnd(s, touches, now).0.activeTouches);
      assert after == Keys(TouchEnd(s1, touches[1..], now).0.activeTouches);
      forall i | 1 <= i < |touches| ensures touches[i].identifier !in after {
        assert touches[1..][i - 1] == touches[i];
      }
    }
  }

  /**
   When the primary touch lifts and others are still down, the earliest of
   them becomes primary and the position jumps to where it is; when none
   remain, the handler goes inactive and emits one `end`.
   */
  lemma PrimaryTouchHandOver(s: Handler, t: Touch, now: real)
    requires s.primaryTouchId == Some(t.identifier)
    requires t.identifier in Keys(s.activeTouches)
    ensures var (r, events) := TouchEnd(s, [t], now);
      var rest := Delete(s.activeTouches, t.identifier);
      && r.activeTouches == rest
      && (|rest| > 0 ==>
            && r.primaryTouchId == Some(rest[0].0)
            && r.x == rest[0].1.x && r.y == rest[0].1.y
            && r.isActive == s.isActive
            && events == [])
      && (|rest| == 0 ==>
            && r.primaryTouchId.None?
            && !r.isActive
            && events == [End(TouchInput, s.x, s.y)]
            && (s.hasPuck ==> !r.puckVisible && r.puckClasses == {}))
  {
    assert [t][1..] == [];
  }

  /**
   A move of a touch that is down but not primary updates only that
   touch's stored coordinates: position, velocity and callbacks are untouched.
   */
  lemma NonPrimaryMove(s: Handler, t: Touch, now: real)
    requires t.identifier in Keys(s.activeTouches)
    requires s.primaryTouchId != Some(t.identifier)
    ensures var (r, events) := TouchMove(s, [t], now);
      var info := Get(s.activeTouches, t.identifier).value;
      && events == []
      && r == s.(activeTouches := Put(s.activeTouches, t.identifier, info.(x := t.clientX, y := t.clientY)))
      && Get(r.activeTouches, t.identifier) == Some(info.(x := t.clientX, y := t.clientY))
  {
    assert [t][1..] == [];
    var info := Get(s.activeTouches, t.identifier).value;
    PutGet(s.activeTouches, t.identifier, info.(x := t.clientX, y := t.clientY), t.identifier);
  }

  /** A move of the primary touch moves the tracked position; without smoothing the velocity is the displacement. */
  lemma PrimaryMove(s: Handler, t: Touch, now: real)
    requires t.identifier in Keys(s.activeTouches)
    requires s.primaryTouchId == Some(t.identifier)
    ensures var (r, events) := TouchMove(s, [t], now);
      && r.x == t.clientX && r.y == t.clientY && r.prevX == s.x && r.prevY == s.y
      && (!s.config.enableVelocitySmoothing ==> r.velocityX == t.clientX - s.x && r.velocityY == t.clientY - s.y)
      && |events| == 2
      && events[0] == VelocityChange(r.velocityX, r.velocityY)
      && events[1] == Move(TouchInput, t.clientX, t.clientY, r.velocityX, r.velocityY, Some(t.identifier))
  {
    assert [t][1..] == [];
  }

  /**
   Identifier 0 does not count as a primary touch: a second touch that
   comes down while touch 0 is primary takes over, and `start` is emitted again.
   */
  lemma ZeroIdentifierIsNoPrimary(s: Handler, t: Touch, now: real)
    requires s.primaryTouchId == Some(0)
    ensures var (r, events) := TouchStart(s, [t], now);
      && r.primaryTouchId == Some(t.identifier)
      && r.isActive
      && events == [Start(TouchInput, t.clientX, t.clientY, Some(t.identifier))]
  {
    assert [t][1..] == [];
  }

  /** A touch that comes down while another (non-zero) touch is primary changes nothing but the touch table. */
  lemma SecondTouchDown(s: Handler, t: Touch, now: real)
    requires !NoPrimary(s.primaryTouchId)
    ensures var (r, events) := TouchStart(s, [t], now);
      && events == []
      && r == s.(activeTouches := Put(s.activeTouches, t.identifier, TouchInfo(t.identifier, t.clientX, t.clientY, now)))
  {
    assert [t][1..] == [];
  }

  /** Mouse moves are ignored while the handler is inactive. */
  lemma MouseMoveIgnoredWhileInactive(s: Handler, x: real, y: real, now: real)
    requires !s.isActive && !s.isMobile && s.config.enableMouse
    ensures Dispatch(s, MouseMoveEvent(x, y), now) == (s, [])
  {
  }

  /** After `setPuckState`, the puck carries exactly the class of the state, or none for "inactive". */
  lemma PuckStateClasses(s: Handler, state: PuckState)
    requires s.hasPuck
    ensures state == Dragging ==> SetPuckState(s, state).puckClasses == {Dragging}
    ensures state == Active ==> SetPuckState(s, state).puckClasses == {Active}
    ensures state == Inactive ==> SetPuckState(s, state).puckClasses == {}
    ensures SetPuckState(SetPuckState(s, Dragging), state) == SetPuckState(s, state)
  {
  }

  /** Pushing a sequence of latencies in turn. */
  function PushAll(history: seq<real>, ls: seq<real>): seq<real>
    decreases |ls|
  {
    if |ls| == 0 then history else PushAll(PushLatency(history, ls[0]), ls[1..])
  }

  /** The most recent (at most ten) entries. */
  function Recent(h: seq<real>): (r: seq<real>)
    ensures |r| <= MaxLatencyHistory
  {
    if |h| <= MaxLatencyHistory then h else h[|h| - MaxLatencyHistory..]
  }

  lemma RecentOfSuffix(x: seq<real>, n: nat)
    requires n <= |x| && |x| - n >= (if |x| < MaxLatencyHistory then |x| else MaxLatencyHistory)
    ensures Recent(x[n..]) == Recent(x)
  {
    if |x| > MaxLatencyHistory {
      assert x[n..][|x| - n - MaxLatencyHistory..] == x[|x| - MaxLatencyHistory..];
    }
  }

  /**
   The latency history holds at most ten entries, and they are the most
   recent ones: pushing any sequence onto a history of at most ten entries
   leaves the last ten of everything pushed.
   */
  lemma {:induction false} LatencyWindow(history: seq<real>, ls: seq<real>)
    requires |history| <= MaxLatencyHistory
    ensures PushAll(history, ls) == Recent(history + ls)
    decreases |ls|
  {
    if |ls| == 0 {
      assert history + ls == history;
    } else {
      var h1 := PushLatency(history, ls[0]);
      LatencyWindow(h1, ls[1..]);
      PushThenRest(history, ls);
    }
  }

  /** After one push, the last ten of what follows are the last ten of the whole. */
  lemma PushThenRest(history: seq<real>, ls: seq<real>)
    requires |history| <= MaxLatencyHistory && |ls| > 0
    ensures Recent(PushLatency(history, ls[0]) + ls[1..]) == Recent(history + ls)
  {
    var h1 := PushLatency(history, ls[0]);
    var whole := history + ls;
    assert history + [ls[0]] + ls[1..] == whole;
    if |history| == MaxLatencyHistory {
      assert h1 + ls[1..] == whole[1..];
      RecentOfSuffix(whole, 1);
    } else {
      assert h1 + ls[1..] == whole;
    }
  }

  lemma {:induction false} SumBound(h: seq<real>, t: real)
    requires forall i :: 0 <= i < |h| ==> h[i] <= t
    ensures Sum(h) <= |h| as real * t
    decreases |h|
  {
    if |h| > 0 {
      assert forall i :: 0 <= i < |h[1..]| ==> h[1..][i] == h[i + 1];
      SumBound(h[1..], t);
    }
  }

  /** When every recorded latency is within the threshold, the latency is acceptable. */
  lemma LatencyAcceptableWhenAllWithin(s: Handler)
    requires Threshold(s) >= 0.0 && forall i :: 0 <= i < |s.latencyHistory| ==> s.latencyHistory[i] <= Threshold(s)
    ensures IsLatencyAcceptable(s)
  {
    var threshold := Threshold(s);
    var h := s.latencyHistory;
    if |h| > 0 {
      SumBound(h, threshold);
      assert Sum(h) / |h| as real <= threshold;
    }
  }
}
