/**
 The V5 device redirect: a page loaded outside the device's folder is
 sent to `{mobile|desktop}/liquid-paint-{t}to{t+1}.html?t={t}`, where `t`
 is the raw `t` URL parameter (default "1") and `t+1` is what JavaScript
 prints for `parseInt(t) + 1`.
 */
module DeviceRedirect {
  import opened Wrappers
  import opened Strings
  import DeviceDetector
  import StageRouter

  /** The alternatives of the case-insensitive user-agent pattern, lower-cased. */
  const MobilePattern: seq<string> :=
    ["android", "webos", "iphone", "ipad", "ipod", "blackberry", "iemobile", "opera mini"]

  /**
   `isMobileDevice`: a mobile user agent, more than one touch point, or a
   window at most 768 wide. An iPhone or Android agent in its usual
   spelling is mobile whatever the window.
   */
  predicate IsMobileDevice(userAgent: string, maxTouchPoints: nat, innerWidth: int)
    ensures Contains(userAgent, "iPhone") ==> IsMobileDevice(userAgent, maxTouchPoints, innerWidth)
    ensures Contains(userAgent, "Android") ==> IsMobileDevice(userAgent, maxTouchPoints, innerWidth)
  {
    ContainsLower(userAgent, "iPhone");
    ContainsLower(userAgent, "Android");
    assert Lower("iPhone") == MobilePattern[2] && Lower("Android") == MobilePattern[0];
    || DeviceDetector.AnyKeyword(Lower(userAgent), MobilePattern)
    || maxTouchPoints > 1
    || innerWidth <= 768
  }

  function DevicePrefix(userAgent: string, maxTouchPoints: nat, innerWidth: int): (p: string)
    ensures p == "mobile" <==> IsMobileDevice(userAgent, maxTouchPoints, innerWidth)
    ensures p == "mobile" || p == "desktop"
  {
    if IsMobileDevice(userAgent, maxTouchPoints, innerWidth) then "mobile" else "desktop"
  }

  /** `urlParams.get('t') || '1'`: a missing or empty parameter gives "1". */
  function Transformation(param: Option<string>): (t: string)
    ensures t != ""
    ensures param.Some? && param.value != "" ==> t == param.value
  {
    match param
    case Some(p) => if p == "" then "1" else p
    case None => "1"
  }

  /** How JavaScript prints `parseInt(t) + 1`: the successor in decimal, or "NaN". */
  function NextText(t: string): string {
    match ParseInt(t, Auto)
    case None => "NaN"
    case Some(v) => IntToString(v + 1)
  }

  /** The page for transformation `t`: named after `t` and the text of its successor. */
  function HtmlFile(t: string): (f: string)
    ensures StartsWith(f, "liquid-paint-" + t + "to") && EndsWith(f, ".html")
  {
    "liquid-paint-" + t + "to" + NextText(t) + ".html"
  }

  /** `loadDeviceSpecificFile`: the new location, or None when already in the device's folder. */
  function LoadDeviceSpecificFile(userAgent: string, maxTouchPoints: nat, innerWidth: int,
                                  param: Option<string>, pathname: string): (href: Option<string>)
    ensures var prefix := DevicePrefix(userAgent, maxTouchPoints, innerWidth);
      href.None? <==> Contains(pathname, "/" + prefix + "/")
  {
    var t := Transformation(param);
    var prefix := DevicePrefix(userAgent, maxTouchPoints, innerWidth);
    if Contains(pathname, "/" + prefix + "/") then None
    else Some(prefix + "/" + HtmlFile(t) + "?t=" + t)
  }

  // ---------------------------------------------------------------------
  // Properties

  /** An occurrence survives lower-casing of both strings. */
  lemma ContainsLower(s: string, t: string)
    ensures Contains(s, t) ==> Contains(Lower(s), Lower(t))
  {
    if Contains(s, t) {
      var j :| 0 <= j <= |s| && OccursAt(s, t, j);
      assert Lower(s)[j..j + |t|] == Lower(t) by {
        forall i | 0 <= i < |t|
          ensures Lower(s)[j..j + |t|][i] == Lower(t)[i]
        {
          assert s[j..j + |t|][i] == t[i];
        }
      }
      assert OccursAt(Lower(s), Lower(t), j);
    }
  }

  /** The pattern ignores case: agents that lower-case alike are classified alike. */
  lemma CaseInsensitive(a: string, b: string, maxTouchPoints: nat, innerWidth: int)
    requires Lower(a) == Lower(b)
    ensures IsMobileDevice(a, maxTouchPoints, innerWidth) <==> IsMobileDevice(b, maxTouchPoints, innerWidth)
  {
  }

  /** A desktop agent with at most one touch point in a wide window is not mobile. */
  lemma DesktopConditions(ua: string, maxTouchPoints: nat, innerWidth: int)
    requires !DeviceDetector.AnyKeyword(Lower(ua), MobilePattern)
    ensures IsMobileDevice(ua, maxTouchPoints, innerWidth) <==> maxTouchPoints > 1 || innerWidth <= 768
  {
  }

  /** For a numeric parameter the page is `liquid-paint-{n}to{n+1}.html`, the V7 naming for n >= 0. */
  lemma HtmlFileOfNumber(n: int)
    ensures HtmlFile(IntToString(n)) == "liquid-paint-" + IntToString(n) + "to" + IntToString(n + 1) + ".html"
    ensures n >= 0 ==> HtmlFile(IntToString(n)) == StageRouter.PageName(n)
  {
    ParseIntOfIntToString(n, Auto);
    assert NextText(IntToString(n)) == IntToString(n + 1);
  }

  /** A parameter that is not a number names its successor "NaN". */
  lemma NonNumeric(t: string)
    requires ParseInt(t, Auto).None?
    ensures HtmlFile(t) == "liquid-paint-" + t + "toNaN.html"
  {
    assert "to" + "NaN" + ".html" == "toNaN.html";
    assert "liquid-paint-" + t + "to" + "NaN" + ".html" == "liquid-paint-" + t + ("to" + "NaN" + ".html");
  }

  /** Without a parameter the redirect goes to the first transformation of the device's folder. */
  lemma DefaultTarget(userAgent: string, maxTouchPoints: nat, innerWidth: int, pathname: string)
    ensures var prefix := DevicePrefix(userAgent, maxTouchPoints, innerWidth);
      var href := LoadDeviceSpecificFile(userAgent, maxTouchPoints, innerWidth, None, pathname);
      href.Some? ==> href.value == prefix + "/" + StageRouter.PageName(1) + "?t=1"
  {
    HtmlFileOfNumber(1);
    assert IntToString(1) == "1";
  }

  /** `/p/` occurs in `d + p + "/" + r` when the directory `d` ends with a slash. */
  lemma FolderInPath(d: string, p: string, r: string)
    requires EndsWith(d, "/")
    ensures Contains(d + p + "/" + r, "/" + p + "/")
  {
    var s := d + p + "/" + r;
    var a := "/" + p + "/";
    var j := |d| - 1;
    assert d[j] == '/' by { assert d[j..] == "/"; }
    assert s[j..j + |a|] == a by {
      forall i | 0 <= i < |a|
        ensures s[j..j + |a|][i] == a[i]
      {
        if i == 0 {
        } else if i <= |p| {
          assert s[j + i] == p[i - 1];
        } else {
          assert s[j + i] == '/';
        }
      }
    }
    assert OccursAt(s, a, j);
  }

  /** No redirect loop: the redirect's page, opened under any directory, is not redirected again. */
  lemma TargetIsFinal(userAgent: string, maxTouchPoints: nat, innerWidth: int,
                      param: Option<string>, dir: string)
    requires EndsWith(dir, "/")
    ensures var page := dir + DevicePrefix(userAgent, maxTouchPoints, innerWidth) + "/" + HtmlFile(Transformation(param));
      LoadDeviceSpecificFile(userAgent, maxTouchPoints, innerWidth, param, page).None?
  {
    FolderInPath(dir, DevicePrefix(userAgent, maxTouchPoints, innerWidth), HtmlFile(Transformation(param)));
  }
}
