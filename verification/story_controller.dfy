/**
 The five-stage story state machine of the V6 viewer. A stage change is
 asynchronous in the browser: it starts a transition, waits, then finishes
 it, and while it waits any further stage change is refused. That is
 modelled as two steps, `Begin` and `Finish`, with `GoToStage` their
 composition. The stage parameter of the page URL is part of the state;
 rendering, particles and timers are not.
 */
module StoryController {
  import opened Wrappers
  import opened Strings
  import OrderedMap
  import Callbacks

  const StageCount: int := 5

  /** A stage's particle colour: hue, saturation and lightness in whole units, and an alpha. */
  datatype Colour = Colour(h: int, s: int, l: int, a: real)

  datatype StageData = StageData(
    id: int,
    title: string,
    character: string,
    description: string,
    particleColor: Colour,
    backgroundColor: string,
    progressPercentage: int)

  const Stages: seq<StageData> := [
    StageData(1, "The Happy Beginning", "KidHappy", "A child's joyful adventure begins",
      Colour(200, 70, 50, 0.8), "#0a0a0a", 0),
    StageData(2, "Growing Concern", "KidScared", "Fear begins to creep in",
      Colour(20, 70, 50, 0.8), "#1a0a0a", 25),
    StageData(3, "The Monster Appears", "Monster01", "A fearsome creature emerges",
      Colour(280, 70, 50, 0.8), "#1a0a1a", 50),
    StageData(4, "Facing the Fear", "Monster02", "Confronting the ultimate challenge",
      Colour(0, 70, 50, 0.8), "#1a0a0a", 75),
    StageData(5, "Resolution", "Resolution", "Peace and understanding prevail",
      Colour(120, 70, 50, 0.8), "#0a1a0a", 100)
  ]

  /**
   The effective options. A key given by the caller wins over its default,
   because the caller's object is spread over the defaults.
   */
  datatype Config = Config(
    transitionDuration: int,
    enableUrlPersistence: bool,
    enableProgressTracking: bool,
    autoAdvance: bool,
    autoAdvanceDelay: int)

  /** The options from the keys the caller gave (`None` for a key left out). */
  function MakeConfig(transitionDuration: Option<int>, enableUrlPersistence: Option<bool>,
                      enableProgressTracking: Option<bool>, autoAdvance: Option<bool>,
                      autoAdvanceDelay: Option<int>): (c: Config)
    ensures transitionDuration.None? ==> c.transitionDuration == 500
    ensures enableUrlPersistence.None? ==> c.enableUrlPersistence
    ensures enableProgressTracking.None? ==> c.enableProgressTracking
    ensures autoAdvance.None? ==> !c.autoAdvance
    ensures autoAdvanceDelay.None? ==> c.autoAdvanceDelay == 10000
    ensures transitionDuration.Some? ==> c.transitionDuration == transitionDuration.value
    ensures enableUrlPersistence.Some? ==> c.enableUrlPersistence == enableUrlPersistence.value
    ensures enableProgressTracking.Some? ==> c.enableProgressTracking == enableProgressTracking.value
    ensures autoAdvance.Some? ==> c.autoAdvance == autoAdvance.value
    ensures autoAdvanceDelay.Some? ==> c.autoAdvanceDelay == autoAdvanceDelay.value
  {
    Config(transitionDuration.GetOr(500), enableUrlPersistence.GetOr(true),
      enableProgressTracking.GetOr(true), autoAdvance.GetOr(false), autoAdvanceDelay.GetOr(10000))
  }

  /** The payload-carrying events the controller triggers. */
  datatype Event =
    | StageStart(stage: int)
    | StageComplete(stage: int, interactionProgress: real)
    | TransitionStart(fromStage: int, toStage: int)
    | TransitionComplete(fromStage: int, toStage: int)
    | StoryComplete(finalStage: int)

  const EventNames: seq<string> := ["stageStart", "stageComplete", "transitionStart", "transitionComplete", "storyComplete"]

  /** Callbacks are identified by number. */
  type CallbackId = nat

  datatype State = State(
    config: Config,
    currentStage: int,
    isTransitioning: bool,
    isReady: bool,
    interactionProgress: real,
    urlStage: Option<string>,
    callbacks: Callbacks.Registry<CallbackId>)

  /** The state's guarantees: a stage of the table and a progress in [0, 1]. */
  predicate Valid(s: State) {
    1 <= s.currentStage <= StageCount && 0.0 <= s.interactionProgress <= 1.0
  }

  /** `getStageData`: the first table entry with that id. */
  function StageDataOf(id: int): (r: Option<StageData>)
    ensures r.Some? <==> 1 <= id <= StageCount
    ensures r.Some? ==> r.value == Stages[id - 1] && r.value.id == id
  {
    if 1 <= id <= StageCount then Some(Stages[id - 1]) else None
  }

  /** The table's ids are 1..5 in order, and each stored percentage is 25 per stage passed. */
  lemma StagesTable()
    ensures |Stages| == StageCount
    ensures forall i :: 0 <= i < |Stages| ==> Stages[i].id == i + 1
    ensures forall i :: 0 <= i < |Stages| ==> Stages[i].progressPercentage == i * 25
  {
  }

  /**
   `getProgressPercentage`: (stage - 1) / (stages - 1) * 100. For a stage
   of the table it is 25 per stage passed, lies in [0, 100], and agrees
   with that stage's stored percentage.
   */
  function ProgressPercentage(s: State): (p: real)
    ensures p == ((s.currentStage - 1) * 25) as real
    ensures Valid(s) ==> 0.0 <= p <= 100.0 && p == Stages[s.currentStage - 1].progressPercentage as real
  {
    StagesTable();
    ((s.currentStage - 1) as real / (StageCount - 1) as real) * 100.0
  }

  /** `isStoryComplete` */
  predicate IsStoryComplete(s: State) {
    s.currentStage == StageCount
  }

  /** A `stage` parameter is accepted when it is non-empty and its decimal value is a stage of the table. */
  predicate AcceptedUrlStage(param: Option<string>) {
    && param.Some? && param.value != ""
    && ParseInt(param.value, Ten).Some?
    && 1 <= ParseInt(param.value, Ten).value <= StageCount
  }

  /** `loadStageFromURL`: an accepted parameter replaces the current stage; anything else keeps it. */
  function StageFromUrl(current: int, param: Option<string>): (stage: int)
    ensures AcceptedUrlStage(param) ==> stage == ParseInt(param.value, Ten).value
    ensures !AcceptedUrlStage(param) ==> stage == current
  {
    if param.Some? && param.value != "" then
      match ParseInt(param.value, Ten)
      case Some(n) => if 1 <= n <= StageCount then n else current
      case None => current
    else current
  }

  /** The constructor and `init`: stage 1, or the URL's stage when persistence is on. */
  function Init(config: Config, urlStage: Option<string>): (r: (State, seq<Event>))
    ensures Valid(r.0) && r.0.isReady && !r.0.isTransitioning
    ensures r.1 == [StageStart(r.0.currentStage)]
    ensures !config.enableUrlPersistence || urlStage.None? ==> r.0.currentStage == 1
  {
    var stage := if config.enableUrlPersistence then StageFromUrl(1, urlStage) else 1;
    (State(config, stage, false, true, 0.0, urlStage, Callbacks.Empty(EventNames)), [StageStart(stage)])
  }

  /** `updateURL`: the stage parameter is rewritten when persistence is on. */
  function WithUrl(s: State): State {
    if s.config.enableUrlPersistence then s.(urlStage := Some(IntToString(s.currentStage))) else s
  }

  /** How the first half of a stage change ends: at once with a result, or mid-transition. */
  datatype Step =
    | Settled(state: State, result: bool, events: seq<Event>)
    | InTransition(state: State, fromStage: int, events: seq<Event>)

  /** `goToStage` up to the wait for the transition to play out. */
  function Begin(s: State, target: int): (r: Step)
    ensures target < 1 || target > StageCount ==> r == Settled(s, false, [])
    ensures 1 <= target <= StageCount && target == s.currentStage ==> r == Settled(s, true, [])
    ensures 1 <= target <= StageCount && target != s.currentStage && s.isTransitioning ==> r == Settled(s, false, [])
    ensures r.InTransition? ==>
      && r.state.currentStage == target && r.state.isTransitioning
      && r.state.interactionProgress == 0.0 && r.fromStage == s.currentStage
  {
    if target < 1 || target > StageCount then Settled(s, false, [])
    else if target == s.currentStage then Settled(s, true, [])
    else if s.isTransitioning then Settled(s, false, [])
    else
      var moved := s.(isTransitioning := true, currentStage := target, interactionProgress := 0.0);
      InTransition(WithUrl(moved), s.currentStage,
        [TransitionStart(s.currentStage, target), StageComplete(s.currentStage, s.interactionProgress)])
  }

  /** `goToStage` after the wait: the transition ends, and entering the last stage completes the story. */
  function Finish(s: State, fromStage: int): (r: (State, seq<Event>))
    ensures r.0 == s.(isTransitioning := false)
  {
    var done := s.(isTransitioning := false);
    var events := [TransitionComplete(fromStage, s.currentStage), StageStart(s.currentStage)];
    (done, if s.currentStage == StageCount then events + [StoryComplete(s.currentStage)] else events)
  }

  /**
   `goToStage` run to completion: the new state, the returned flag, the
   events triggered. It succeeds exactly for a stage of the table that is
   the current one or reached while no transition is in flight; a refusal
   changes nothing, and a success ends at the target.
   */
  function GoToStage(s: State, target: int): (r: (State, bool, seq<Event>))
    ensures r.1 <==> 1 <= target <= StageCount && (target == s.currentStage || !s.isTransitioning)
    ensures !r.1 ==> r == (s, false, [])
    ensures r.1 ==> r.0.currentStage == target
    ensures r.0.config == s.config && r.0.callbacks == s.callbacks
    ensures Valid(s) ==> Valid(r.0)
  {
    match Begin(s, target)
    case Settled(st, result, events) => (st, result, events)
    case InTransition(st, fromStage, events) =>
      var (done, more) := Finish(st, fromStage);
      (done, true, events + more)
  }

  /** `goToNextStage` */
  function GoToNextStage(s: State): (r: (State, bool, seq<Event>))
    ensures s.currentStage + 1 > StageCount ==> r == (s, false, [])
  {
    if s.currentStage + 1 > StageCount then (s, false, []) else GoToStage(s, s.currentStage + 1)
  }

  /** `goToPreviousStage` */
  function GoToPreviousStage(s: State): (r: (State, bool, seq<Event>))
    ensures s.currentStage - 1 < 1 ==> r == (s, false, [])
  {
    if s.currentStage - 1 < 1 then (s, false, []) else GoToStage(s, s.currentStage - 1)
  }

  /** `reset`: back to stage 1, refused only while a transition elsewhere is in flight. */
  function Reset(s: State): (r: (State, bool, seq<Event>))
    ensures r.1 <==> s.currentStage == 1 || !s.isTransitioning
    ensures r.1 ==> r.0.currentStage == 1
    ensures !r.1 ==> r == (s, false, [])
  {
    GoToStage(s, 1)
  }

  /** `updateInteractionProgress`: clamp into [0, 1], unless progress tracking is off. */
  function UpdateInteractionProgress(s: State, progress: real): (r: State)
    ensures !s.config.enableProgressTracking ==> r == s
    ensures s.config.enableProgressTracking ==> 0.0 <= r.interactionProgress <= 1.0
    ensures s.config.enableProgressTracking && 0.0 <= progress <= 1.0 ==> r.interactionProgress == progress
    ensures s.config.enableProgressTracking && progress < 0.0 ==> r.interactionProgress == 0.0
    ensures s.config.enableProgressTracking && progress > 1.0 ==> r.interactionProgress == 1.0
    ensures r == s.(interactionProgress := r.interactionProgress)
  {
    if !s.config.enableProgressTracking then s
    else
      var upper := if progress < 1.0 then progress else 1.0;
      s.(interactionProgress := if upper > 0.0 then upper else 0.0)
  }

  /** `on`: only the registry changes; a name the object inherits throws. */
  function On(s: State, event: string, cb: CallbackId): (r: Result<State, string>)
    ensures r.Failure? <==> Callbacks.FindsInherited(s.callbacks, event)
    ensures r.Success? ==> r.value == s.(callbacks := r.value.callbacks)
    ensures r.Success? ==> OrderedMap.Keys(r.value.callbacks) == OrderedMap.Keys(s.callbacks)
    ensures r.Success? && event in OrderedMap.Keys(s.callbacks) ==>
      Callbacks.Listeners(r.value.callbacks, event) == Callbacks.Listeners(s.callbacks, event) + [cb]
  {
    Callbacks.OnListeners(s.callbacks, event, cb, event);
    match Callbacks.On(s.callbacks, event, cb)
    case Success(callbacks) => Success(s.(callbacks := callbacks))
    case Failure(e) => Failure(e)
  }

  /** `off`: only the registry changes; a name the object inherits throws. */
  function Off(s: State, event: string, cb: CallbackId): (r: Result<State, string>)
    ensures r.Failure? <==> Callbacks.FindsInherited(s.callbacks, event)
    ensures r.Success? ==> r.value == s.(callbacks := r.value.callbacks)
    ensures r.Success? ==> OrderedMap.Keys(r.value.callbacks) == OrderedMap.Keys(s.callbacks)
    ensures r.Success? ==>
      Callbacks.Listeners(r.value.callbacks, event) == Callbacks.RemoveFirst(Callbacks.Listeners(s.callbacks, event), cb)
  {
    Callbacks.OffListeners(s.callbacks, event, cb, event);
    match Callbacks.Off(s.callbacks, event, cb)
    case Success(callbacks) => Success(s.(callbacks := callbacks))
    case Failure(e) => Failure(e)
  }

  // ---------------------------------------------------------------------
  // Properties

  function CountStoryComplete(events: seq<Event>): nat {
    if |events| == 0 then 0
    else (if events[0].StoryComplete? then 1 else 0) + CountStoryComplete(events[1..])
  }

  /** An out-of-range target is refused and changes nothing. */
  lemma OutOfRangeRefused(s: State, target: int)
    requires target < 1 || target > StageCount
    ensures GoToStage(s, target) == (s, false, [])
  {
  }

  /** The current stage is accepted without a transition and without events. */
  lemma SameStageAccepted(s: State)
    requires Valid(s)
    ensures GoToStage(s, s.currentStage) == (s, true, [])
  {
  }

  /** A stage change while another is in flight is refused and changes nothing. */
  lemma RefusedWhileTransitioning(s: State, target: int)
    requires s.isTransitioning && target != s.currentStage
    ensures GoToStage(s, target) == (s, false, [])
  {
  }

  /**
   A stage change that starts ends at the target with the progress reset and
   no transition in flight, returns true, and triggers transitionStart,
   stageComplete, transitionComplete and stageStart in that order, then
   storyComplete exactly when the target is the last stage.
   */
  lemma SuccessfulTransition(s: State, target: int)
    requires 1 <= target <= StageCount && target != s.currentStage && !s.isTransitioning
    ensures var (t, ok, events) := GoToStage(s, target);
      && ok
      && t.currentStage == target && t.interactionProgress == 0.0 && !t.isTransitioning
      && t.config == s.config && t.callbacks == s.callbacks && t.isReady == s.isReady
      && events[..4] == [TransitionStart(s.currentStage, target), StageComplete(s.currentStage, s.interactionProgress),
                         TransitionComplete(s.currentStage, target), StageStart(target)]
      && |events| == (if target == StageCount then 5 else 4)
      && (target == StageCount ==> events[4] == StoryComplete(StageCount))
      && CountStoryComplete(events) == (if target == StageCount then 1 else 0)
  {
    var (t, ok, events) := GoToStage(s, target);
    var tail := if target == StageCount then [StoryComplete(StageCount)] else [];
    assert events == [TransitionStart(s.currentStage, target), StageComplete(s.currentStage, s.interactionProgress),
                      TransitionComplete(s.currentStage, target), StageStart(target)] + tail;
    CountStoryCompleteSkip([TransitionStart(s.currentStage, target), StageComplete(s.currentStage, s.interactionProgress),
                            TransitionComplete(s.currentStage, target), StageStart(target)], tail);
  }

  lemma {:induction false} CountStoryCompleteSkip(a: seq<Event>, b: seq<Event>)
    requires forall i :: 0 <= i < |a| ==> !a[i].StoryComplete?
    ensures CountStoryComplete(a + b) == CountStoryComplete(b)
  {
    if |a| > 0 {
      assert (a + b)[1..] == a[1..] + b;
      CountStoryCompleteSkip(a[1..], b);
    } else {
      assert a + b == b;
    }
  }

  /** Every step keeps the stage in the table and the progress in [0, 1]. */
  lemma GoToStagePreservesValid(s: State, target: int)
    requires Valid(s)
    ensures Valid(GoToStage(s, target).0)
    ensures Valid(GoToNextStage(s).0) && Valid(GoToPreviousStage(s).0) && Valid(Reset(s).0)
  {
  }

  lemma UpdatePreservesValid(s: State, progress: real, event: string, cb: CallbackId)
    requires Valid(s)
    ensures Valid(UpdateInteractionProgress(s, progress))
    ensures On(s, event, cb).Success? ==> Valid(On(s, event, cb).value)
    ensures Off(s, event, cb).Success? ==> Valid(Off(s, event, cb).value)
  {
  }

  /** Next and previous move by exactly one stage when they succeed, and fail only at the ends. */
  lemma NextAndPrevious(s: State)
    requires Valid(s) && !s.isTransitioning
    ensures var (t, ok, _) := GoToNextStage(s);
      && (ok <==> s.currentStage < StageCount)
      && (ok ==> t.currentStage == s.currentStage + 1)
    ensures var (t, ok, _) := GoToPreviousStage(s);
      && (ok <==> s.currentStage > 1)
      && (ok ==> t.currentStage == s.currentStage - 1)
  {
  }

  /**
   With persistence on, a completed stage change writes the stage into the
   URL, and a controller started from that URL starts at that stage.
   */
  lemma UrlRoundTrip(s: State, target: int)
    requires 1 <= target <= StageCount && target != s.currentStage && !s.isTransitioning
    requires s.config.enableUrlPersistence
    ensures var t := GoToStage(s, target).0;
      && t.urlStage == Some(IntToString(target))
      && Init(s.config, t.urlStage).0.currentStage == target
  {
    ParseIntOfIntToString(target, Ten);
    assert IntToString(target) != "" by {
      assert |NatToString(target)| >= 1;
    }
  }

  /** The story is complete exactly at the last stage, which only a transition into it or the URL reaches. */
  lemma StoryCompleteOnlyOnEntry(s: State, target: int)
    requires !(1 <= target <= StageCount && target != s.currentStage && !s.isTransitioning)
    ensures CountStoryComplete(GoToStage(s, target).2) == 0
    ensures IsStoryComplete(GoToStage(s, target).0) <==> IsStoryComplete(s)
  {
  }
}
