/**
 The V7 stage timeline: one circle per stage, classified against the
 current stage, a progress bar whose width combines the completed stages
 with the reveal percentage of the current one, and the stage navigation
 it triggers. The DOM, the styles and the reveal timer are not modelled;
 the window's width and touch support are inputs of the navigation.
 */
module Timeline {
  import opened Wrappers
  import opened Strings
  import StageRouter

  /** The effective options after the constructor's `||` defaults. */
  datatype Options = Options(totalStages: int, currentStage: int, hasOnStageChange: bool, interactive: bool)

  /** JavaScript `x || d` on a number: an absent or zero value gives the default. */
  function NumberOr(x: Option<int>, d: int): (r: int)
    ensures x.Some? && x.value != 0 ==> r == x.value
    ensures x.None? || x.value == 0 ==> r == d
  {
    if x.Some? && x.value != 0 then x.value else d
  }

  function MakeOptions(totalStages: Option<int>, currentStage: Option<int>,
                       onStageChange: bool, interactive: Option<bool>): (o: Options)
    ensures o.totalStages != 0 && o.currentStage != 0
    ensures o.totalStages == NumberOr(totalStages, 4) && o.currentStage == NumberOr(currentStage, 1)
    ensures o.interactive <==> interactive == Some(true)
    ensures o.hasOnStageChange == onStageChange
  {
    Options(NumberOr(totalStages, 4), NumberOr(currentStage, 1), onStageChange,
            interactive.Some? && interactive.value)
  }

  datatype Timeline = Timeline(options: Options, revealPercentage: real)

  /** The constructor: no reveal yet. */
  function Create(o: Options): (t: Timeline)
    ensures t.options == o && t.revealPercentage == 0.0
  {
    Timeline(o, 0.0)
  }

  /** `createTimelineHTML` makes one circle for each of 1..totalStages. */
  function CircleCount(t: Timeline): (n: nat)
    ensures t.options.totalStages >= 0 ==> n == t.options.totalStages
    ensures t.options.totalStages < 0 ==> n == 0
  {
    if t.options.totalStages >= 0 then t.options.totalStages else 0
  }

  datatype CircleClass = Completed | Active | Plain

  /** `updateDisplay` for the circle of stage `stageNum`. */
  function CircleClassOf(stageNum: int, currentStage: int): (c: CircleClass)
    ensures c == Completed <==> stageNum < currentStage
    ensures c == Active <==> stageNum == currentStage
    ensures c == Plain <==> stageNum > currentStage
  {
    if stageNum < currentStage then Completed
    else if stageNum == currentStage then Active
    else Plain
  }

  /** The classes of all circles; circle `i` shows stage `i + 1`. */
  function Display(t: Timeline): (cs: seq<CircleClass>)
    ensures |cs| == CircleCount(t)
    ensures forall i :: 0 <= i < |cs| ==> cs[i] == CircleClassOf(i + 1, t.options.currentStage)
  {
    seq(CircleCount(t), i requires 0 <= i < CircleCount(t) => CircleClassOf(i + 1, t.options.currentStage))
  }

  function CountOf(cs: seq<CircleClass>, c: CircleClass): nat {
    if |cs| == 0 then 0 else (if cs[0] == c then 1 else 0) + CountOf(cs[1..], c)
  }

  /**
   `updateProgressBar`: the width of the fill, in percent. With the stage
   in range and the reveal clamped it lies in [0, 100]; it is 100 at the
   last stage fully revealed and 0 at the first stage unrevealed.
   */
  function ProgressWidth(t: Timeline): (w: real)
    requires t.options.totalStages != 0
    ensures 1 <= t.options.currentStage <= t.options.totalStages && 0.0 <= t.revealPercentage <= 100.0
      ==> 0.0 <= w <= 100.0
    ensures t.options.currentStage == t.options.totalStages && t.revealPercentage == 100.0 ==> w == 100.0
    ensures t.options.currentStage == 1 && t.revealPercentage == 0.0 ==> w == 0.0
  {
    var total := t.options.totalStages as real;
    var x := ((t.options.currentStage - 1) * 100) as real + t.revealPercentage;
    assert ((t.options.currentStage - 1) * 100) as real == (t.options.currentStage as real - 1.0) * 100.0;
    RatioBounds(x, total);
    x / total
  }

  /** `setRevealPercentage`: the value clamped into [0, 100]. */
  function SetRevealPercentage(t: Timeline, percentage: real): (r: Timeline)
    ensures 0.0 <= r.revealPercentage <= 100.0
    ensures 0.0 <= percentage <= 100.0 ==> r.revealPercentage == percentage
    ensures percentage < 0.0 ==> r.revealPercentage == 0.0
    ensures percentage > 100.0 ==> r.revealPercentage == 100.0
    ensures r.options == t.options
  {
    var upper := if percentage < 100.0 then percentage else 100.0;
    t.(revealPercentage := if upper > 0.0 then upper else 0.0)
  }

  /** `setCurrentStage`: the new stage, the reveal reset, and the stage passed to `onStageChange` if there is one. */
  function SetCurrentStage(t: Timeline, stage: int): (r: (Timeline, Option<int>))
    ensures r.0.options == t.options.(currentStage := stage)
    ensures r.0.revealPercentage == 0.0
    ensures r.1.Some? <==> t.options.hasOnStageChange
    ensures r.1.Some? ==> r.1.value == stage
  {
    var t1 := t.(options := t.options.(currentStage := stage), revealPercentage := 0.0);
    (t1, if t.options.hasOnStageChange then Some(stage) else None)
  }

  /**
   `navigateToStage`: the location the window is sent to, if any. It is
   sent only when interactive and only for stages 1..4, into the mobile
   folder for a narrow window or a touch device and the desktop folder
   otherwise.
   */
  function NavigateToStage(t: Timeline, stage: int, innerWidth: int, hasTouchStart: bool): (nav: Option<string>)
    ensures nav.Some? <==> t.options.interactive && 1 <= stage <= 4
    ensures nav.Some? && (innerWidth <= 768 || hasTouchStart) ==> nav.value == "mobile/" + StageRouter.PageName(stage)
    ensures nav.Some? && !(innerWidth <= 768 || hasTouchStart) ==> nav.value == "desktop/" + StageRouter.PageName(stage)
  {
    if !t.options.interactive then None
    else
      var folder := if innerWidth <= 768 || hasTouchStart then "mobile" else "desktop";
      match StageRouter.TransformationFile(stage)
      case None => None
      case Some(file) =>
        StageRouter.TransformationFileNaming(stage);
        FolderJoin(folder, file);
        Some(folder + "/" + file)
  }

  lemma FolderJoin(folder: string, file: string)
    ensures folder == "mobile" ==> folder + "/" + file == "mobile/" + file
    ensures folder == "desktop" ==> folder + "/" + file == "desktop/" + file
  {
  }

  /** `onTransformationComplete`: advance one stage and navigate there, unless at the last stage. */
  function OnTransformationComplete(t: Timeline, innerWidth: int, hasTouchStart: bool)
    : (r: (Timeline, Option<int>, Option<string>))
    ensures t.options.currentStage < t.options.totalStages ==>
      && r.0.options == t.options.(currentStage := t.options.currentStage + 1)
      && r.0.revealPercentage == 0.0
      && (r.1.Some? <==> t.options.hasOnStageChange)
      && r.2 == NavigateToStage(r.0, t.options.currentStage + 1, innerWidth, hasTouchStart)
    ensures t.options.currentStage >= t.options.totalStages ==> r == (t, None, None)
  {
    if t.options.currentStage < t.options.totalStages then
      var (t1, notified) := SetCurrentStage(t, t.options.currentStage + 1);
      (t1, notified, NavigateToStage(t1, t1.options.currentStage, innerWidth, hasTouchStart))
    else (t, None, None)
  }

  /** The last piece of a path, as `pathname.split('/').pop()` gives it. */
  function FileName(pathname: string): (f: string)
    ensures !Contains(f, "/")
    ensures EndsWith(pathname, f)
    ensures !Contains(pathname, "/") ==> f == pathname
    ensures Contains(pathname, "/") ==> |f| < |pathname| && pathname[|pathname| - |f| - 1] == '/'
  {
    LastPieceFacts(pathname);
    var parts := Split(pathname, "/");
    parts[|parts| - 1]
  }

  lemma LastPieceFacts(pathname: string)
    ensures var parts := Split(pathname, "/");
      var f := parts[|parts| - 1];
      && !Contains(f, "/")
      && EndsWith(pathname, f)
      && (!Contains(pathname, "/") ==> f == pathname)
      && (Contains(pathname, "/") ==> |f| < |pathname| && pathname[|pathname| - |f| - 1] == '/')
  {
    var parts := Split(pathname, "/");
    SplitPiecesFree(pathname, "/");
    SplitLast(pathname, "/");
    var f := parts[|parts| - 1];
    var n, m := |pathname|, |f|;
    if Contains(pathname, "/") {
      assert SepBefore(pathname, f, "/");
      assert pathname[n - m - 1..n - m][0] == pathname[n - m - 1];
    }
  }

  /** The stage named by a file-name marker, first match in the order 1to2, 2to3, 3to4, 4to5. */
  function MarkerStage(filename: string): Option<int> {
    if Contains(filename, "1to2") then Some(1)
    else if Contains(filename, "2to3") then Some(2)
    else if Contains(filename, "3to4") then Some(3)
    else if Contains(filename, "4to5") then Some(4)
    else None
  }

  /** `initTimeline`: the stage from the URL, overridden by a marker in the file name, over four stages. */
  function InitTimeline(stageParam: Option<string>, pathname: string,
                        interactive: Option<bool>, onStageChange: bool): (t: Timeline)
    ensures t.options.totalStages == 4
    ensures t.revealPercentage == 0.0
    ensures t.options.interactive <==> interactive == Some(true)
  {
    var fromUrl := StageRouter.StageOrFirst(stageParam);
    var stage := match MarkerStage(FileName(pathname)) case Some(s) => s case None => fromUrl;
    Create(MakeOptions(Some(4), Some(stage), onStageChange, interactive))
  }

  // ---------------------------------------------------------------------
  // Properties

  /** Exactly the circles before the current stage are completed, and at most one is active. */
  lemma {:induction false} CompletedCount(t: Timeline)
    requires 1 <= t.options.currentStage <= t.options.totalStages + 1
    ensures CountOf(Display(t), Completed) == t.options.currentStage - 1
    ensures CountOf(Display(t), Active) == if t.options.currentStage <= t.options.totalStages then 1 else 0
  {
    var c := t.options.currentStage;
    var n := CircleCount(t);
    CountClasses(n, c, 0);
    assert Display(t) == Classes(n, c, 0);
  }

  /** The classes of the circles for stages `from + 1 .. from + n`. */
  function Classes(n: nat, c: int, from: int): (cs: seq<CircleClass>)
    ensures |cs| == n
    ensures forall i :: 0 <= i < n ==> cs[i] == CircleClassOf(from + i + 1, c)
    decreases n
  {
    if n == 0 then [] else [CircleClassOf(from + 1, c)] + Classes(n - 1, c, from + 1)
  }

  lemma {:induction false} CountClasses(n: nat, c: int, from: int)
    ensures CountOf(Classes(n, c, from), Completed) == Clamp(c - 1 - from, 0, n)
    ensures CountOf(Classes(n, c, from), Active) == if from < c <= from + n then 1 else 0
    decreases n
  {
    if n > 0 {
      CountClasses(n - 1, c, from + 1);
      var cs := Classes(n, c, from);
      assert cs[1..] == Classes(n - 1, c, from + 1);
    }
  }

  function Clamp(x: int, lo: int, hi: int): int {
    if x < lo then lo else if x > hi then hi else x
  }

  lemma RatioBounds(x: real, total: real)
    ensures total > 0.0 && 0.0 <= x <= 100.0 * total ==> 0.0 <= x / total <= 100.0
    ensures total != 0.0 && x == 100.0 * total ==> x / total == 100.0
  {
    if total != 0.0 {
      var w := x / total;
      assert w * total == x;
    }
  }

  /** Setting the stage and then clamping any reveal keeps the bar in [0, 100] for stages 1..totalStages. */
  lemma StageAndRevealKeepBar(t: Timeline, stage: int, percentage: real)
    requires 1 <= stage <= t.options.totalStages
    ensures var t1 := SetRevealPercentage(SetCurrentStage(t, stage).0, percentage);
      0.0 <= ProgressWidth(t1) <= 100.0
  {
  }

  /** A marker in the file name decides the stage; without one, the URL parameter does, with 1 for none. */
  lemma InitialStage(stageParam: Option<string>, pathname: string, interactive: Option<bool>, onStageChange: bool)
    ensures var t := InitTimeline(stageParam, pathname, interactive, onStageChange);
      var f := FileName(pathname);
      && (MarkerStage(f).Some? ==> t.options.currentStage == MarkerStage(f).value)
      && (MarkerStage(f).None? ==> t.options.currentStage == StageRouter.StageOrFirst(stageParam))
      && (MarkerStage(f).None? && stageParam.None? ==> t.options.currentStage == 1)
  {
  }

  /** The first marker wins: a name holding "1to2" is stage 1 whatever else it holds. */
  lemma MarkerOrder(filename: string)
    ensures Contains(filename, "1to2") ==> MarkerStage(filename) == Some(1)
    ensures !Contains(filename, "1to2") && Contains(filename, "2to3") ==> MarkerStage(filename) == Some(2)
    ensures MarkerStage(filename).Some? ==> 1 <= MarkerStage(filename).value <= 4
  {
  }
}
