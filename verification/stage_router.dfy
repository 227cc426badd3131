/**
 The V7 entry page's router: it picks the device folder from touch
 support and the transformation page from the `stage` URL parameter,
 clamped to the four transformations, and sends the browser to
 `folder/liquid-paint-{s}to{s+1}.html`.
 */
module StageRouter {
  import opened Wrappers
  import opened Strings

  const StageCount: int := 4

  /** `detectDevice`: "mobile" exactly when touch is available. */
  function DetectDevice(hasTouchStart: bool, maxTouchPoints: nat): (d: string)
    ensures d == "mobile" <==> hasTouchStart || maxTouchPoints > 0
    ensures d == "mobile" || d == "desktop"
  {
    if hasTouchStart || maxTouchPoints > 0 then "mobile" else "desktop"
  }

  /** `parseInt(value) || 1`: a missing, non-numeric or zero parameter gives 1. */
  function StageOrFirst(param: Option<string>): (n: int)
    ensures n != 0
    ensures param.Some? && ParseInt(param.value, Auto).Some? && ParseInt(param.value, Auto).value != 0 ==>
      n == ParseInt(param.value, Auto).value
    ensures param.None? || ParseInt(param.value, Auto).None? || ParseInt(param.value, Auto).value == 0 ==> n == 1
  {
    match param
    case None => 1
    case Some(p) =>
      match ParseInt(p, Auto)
      case None => 1
      case Some(v) => if v == 0 then 1 else v
  }

  /** `getCurrentStage`: the parameter clamped into [1, 4]. */
  function CurrentStage(param: Option<string>): (stage: int)
    ensures 1 <= stage <= StageCount
  {
    var s := StageOrFirst(param);
    var upper := if s < StageCount then s else StageCount;
    if upper > 1 then upper else 1
  }

  /** The transformation page of a stage, for the four stages that have one. */
  function TransformationFile(stage: int): (f: Option<string>)
    ensures f.Some? <==> 1 <= stage <= StageCount
  {
    if stage == 1 then Some("liquid-paint-1to2.html")
    else if stage == 2 then Some("liquid-paint-2to3.html")
    else if stage == 3 then Some("liquid-paint-3to4.html")
    else if stage == 4 then Some("liquid-paint-4to5.html")
    else None
  }

  /** `routeToTransformation`: the path the browser is sent to. */
  function RouteToTransformation(hasTouchStart: bool, maxTouchPoints: nat, param: Option<string>): (path: string)
    ensures StartsWith(path, "mobile/") <==> hasTouchStart || maxTouchPoints > 0
    ensures StartsWith(path, "desktop/") <==> !(hasTouchStart || maxTouchPoints > 0)
    ensures path == DetectDevice(hasTouchStart, maxTouchPoints) + "/" + PageName(CurrentStage(param))
  {
    var stage := CurrentStage(param);
    TransformationFileNaming(stage);
    var folder := DetectDevice(hasTouchStart, maxTouchPoints);
    FolderPrefix(folder, TransformationFile(stage).value);
    folder + "/" + TransformationFile(stage).value
  }

  /** A path under one of the two folders starts with that folder and not the other. */
  lemma FolderPrefix(folder: string, rest: string)
    requires folder == "mobile" || folder == "desktop"
    ensures StartsWith(folder + "/" + rest, "mobile/") <==> folder == "mobile"
    ensures StartsWith(folder + "/" + rest, "desktop/") <==> folder == "desktop"
  {
    var path := folder + "/" + rest;
    assert path[..|folder| + 1] == folder + "/";
    assert path[0] == folder[0];
  }

  // ---------------------------------------------------------------------
  // Properties

  /** The naming scheme of the transformation pages: `liquid-paint-{s}to{s+1}.html`. */
  function PageName(stage: nat): (name: string)
    ensures StartsWith(name, "liquid-paint-" + NatToString(stage) + "to") && EndsWith(name, ".html")
  {
    "liquid-paint-" + NatToString(stage) + "to" + NatToString(stage + 1) + ".html"
  }

  /** A stage's page name, spelled out for single-digit stages. */
  lemma PageNameDigits(stage: nat)
    requires stage <= 8
    ensures PageName(stage) == "liquid-paint-" + [DigitChar(stage)] + "to" + [DigitChar(stage + 1)] + ".html"
  {
  }

  /** Each stage's page is named after the transformation it shows. */
  lemma TransformationFileNaming(stage: int)
    requires 1 <= stage <= StageCount
    ensures TransformationFile(stage) == Some(PageName(stage))
  {
    PageNameDigits(stage);
    var c, d := DigitChar(stage), DigitChar(stage + 1);
    if stage == 1 {
      assert c == '1' && d == '2';
      assert "liquid-paint-" + [c] + "to" + [d] + ".html" == "liquid-paint-1to2.html";
    } else if stage == 2 {
      assert c == '2' && d == '3';
      assert "liquid-paint-" + [c] + "to" + [d] + ".html" == "liquid-paint-2to3.html";
    } else if stage == 3 {
      assert c == '3' && d == '4';
      assert "liquid-paint-" + [c] + "to" + [d] + ".html" == "liquid-paint-3to4.html";
    } else {
      assert c == '4' && d == '5';
      assert "liquid-paint-" + [c] + "to" + [d] + ".html" == "liquid-paint-4to5.html";
    }
  }

  /** A missing or non-numeric parameter, or 0, routes to stage 1; a number is clamped into [1, 4]. */
  lemma CurrentStageCases(param: Option<string>, n: int)
    ensures param.None? ==> CurrentStage(param) == 1
    ensures param.Some? && ParseInt(param.value, Auto).None? ==> CurrentStage(param) == 1
    ensures param == Some(IntToString(n)) ==>
      CurrentStage(param) == (if n <= 1 then 1 else if n >= StageCount then StageCount else n)
  {
    ParseIntOfIntToString(n, Auto);
  }

  /** The route is the touch folder and the clamped stage's page, for every numeric parameter. */
  lemma RouteShape(hasTouchStart: bool, maxTouchPoints: nat, n: int)
    ensures var path := RouteToTransformation(hasTouchStart, maxTouchPoints, Some(IntToString(n)));
      var s := if n <= 1 then 1 else if n >= StageCount then StageCount else n;
      && path == DetectDevice(hasTouchStart, maxTouchPoints) + "/" + PageName(s)
      && (hasTouchStart || maxTouchPoints > 0 ==> StartsWith(path, "mobile/"))
      && (!(hasTouchStart || maxTouchPoints > 0) ==> StartsWith(path, "desktop/"))
  {
    CurrentStageCases(Some(IntToString(n)), n);
    var s := if n <= 1 then 1 else if n >= StageCount then StageCount else n;
    TransformationFileNaming(s);
    var folder := DetectDevice(hasTouchStart, maxTouchPoints);
    var path := folder + "/" + PageName(s);
    assert path[..|folder| + 1] == folder + "/";
  }
}
