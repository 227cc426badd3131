/**
 The V6 device detector: a pure classification of the browser environment
 into a device type, an operating system, a browser name, version and
 engine, a performance profile, and the settings tables keyed on them.

 The environment is an input: the user-agent string, whether
 `ontouchstart` is present, `maxTouchPoints`, the screen width, and the
 optional `hardwareConcurrency` and `deviceMemory` readings.
 */
module DeviceDetector {
  import opened Wrappers
  import opened Strings

  datatype Env = Env(
    userAgent: string,
    hasTouchStart: bool,
    maxTouchPoints: nat,
    screenWidth: nat,
    hardwareConcurrency: Option<nat>,
    deviceMemory: Option<real>)

  /** `'ontouchstart' in window || navigator.maxTouchPoints > 0` */
  predicate TouchSupported(env: Env) {
    env.hasTouchStart || env.maxTouchPoints > 0
  }

  datatype DeviceType = Mobile | Tablet | Desktop

  const MobileKeywords: seq<string> :=
    ["Mobile", "Android", "iPhone", "iPod", "BlackBerry", "Windows Phone", "webOS", "Opera Mini", "IEMobile"]

  const TabletKeywords: seq<string> := ["iPad", "Tablet", "Android Tablet"]

  /** `keywords.some(k => ua.includes(k))` */
  predicate AnyKeyword(ua: string, keywords: seq<string>) {
    exists i | 0 <= i < |keywords| :: Contains(ua, keywords[i])
  }

  /** A phone: a mobile keyword (with no "iPad" in the agent), touch, and a screen narrower than 768. */
  predicate IsMobile(env: Env)
    ensures IsMobile(env) ==>
      AnyKeyword(env.userAgent, MobileKeywords) && TouchSupported(env) && env.screenWidth < 768
  {
    var ua := env.userAgent;
    && (exists i | 0 <= i < |MobileKeywords| :: Contains(ua, MobileKeywords[i]) && !Contains(ua, "iPad"))
    && TouchSupported(env)
    && env.screenWidth < 768
  }

  /** An iPad (or a touch "Mac" that is not an iPhone), a tablet keyword, or a touch screen in [768, 1024). */
  predicate IsTablet(env: Env)
    ensures Contains(env.userAgent, "iPad") ==> IsTablet(env)
    ensures TouchSupported(env) && 768 <= env.screenWidth < 1024 ==> IsTablet(env)
    ensures !TouchSupported(env) ==>
      (IsTablet(env) <==> Contains(env.userAgent, "iPad") || AnyKeyword(env.userAgent, TabletKeywords))
  {
    var ua := env.userAgent;
    var touch := TouchSupported(env);
    var isIPad := Contains(ua, "iPad") || (Contains(ua, "Mac") && touch && !Contains(ua, "iPhone"));
    || isIPad
    || AnyKeyword(ua, TabletKeywords)
    || (touch && 768 <= env.screenWidth < 1024)
  }

  /** Tablet is tested first, then mobile; anything else is a desktop. */
  function GetDeviceType(env: Env): (t: DeviceType)
    ensures t == Tablet <==> IsTablet(env)
    ensures t == Mobile <==> !IsTablet(env) && IsMobile(env)
    ensures t == Desktop <==> !IsTablet(env) && !IsMobile(env)
  {
    if IsTablet(env) then Tablet
    else if IsMobile(env) then Mobile
    else Desktop
  }

  // ---------------------------------------------------------------------
  // First-match chains over the user agent

  /** `getOperatingSystem`: one of six names, "Unknown" exactly when the agent names no system. */
  function OperatingSystem(ua: string): (os: string)
    ensures os in ["Windows", "iOS", "macOS", "Android", "Linux", "Unknown"]
    ensures os == "Unknown" <==>
      !Contains(ua, "Windows") && !Contains(ua, "iPhone") && !Contains(ua, "iPad")
      && !Contains(ua, "Mac OS") && !Contains(ua, "Android") && !Contains(ua, "Linux")
  {
    if Contains(ua, "Windows") then "Windows"
    else if Contains(ua, "iPhone") || Contains(ua, "iPad") then "iOS"
    else if Contains(ua, "Mac OS") then "macOS"
    else if Contains(ua, "Android") then "Android"
    else if Contains(ua, "Linux") then "Linux"
    else "Unknown"
  }

  /** `getBrowserName`, as last defined in the class (it has no "OPR" case). */
  function BrowserName(ua: string): (name: string)
    ensures name in ["Chrome", "Firefox", "Safari", "Edge", "Opera", "Internet Explorer", "Unknown"]
    ensures name == "Unknown" <==>
      !Contains(ua, "Chrome") && !Contains(ua, "Firefox") && !Contains(ua, "Safari") && !Contains(ua, "Edg")
      && !Contains(ua, "Opera") && !Contains(ua, "MSIE") && !Contains(ua, "Trident")
  {
    if Contains(ua, "Chrome") && !Contains(ua, "Edg") then "Chrome"
    else if Contains(ua, "Firefox") then "Firefox"
    else if Contains(ua, "Safari") && !Contains(ua, "Chrome") then "Safari"
    else if Contains(ua, "Edg") then "Edge"
    else if Contains(ua, "Opera") then "Opera"
    else if Contains(ua, "MSIE") || Contains(ua, "Trident") then "Internet Explorer"
    else "Unknown"
  }

  /** `getBrowserEngine`: "Unknown" exactly when the agent names none of the four engines. */
  function BrowserEngine(ua: string): (engine: string)
    ensures engine in ["WebKit", "Gecko", "Trident", "Presto", "Unknown"]
    ensures engine == "Unknown" <==>
      !Contains(ua, "WebKit") && !Contains(ua, "Gecko") && !Contains(ua, "Trident") && !Contains(ua, "Presto")
  {
    if Contains(ua, "WebKit") then "WebKit"
    else if Contains(ua, "Gecko") then "Gecko"
    else if Contains(ua, "Trident") then "Trident"
    else if Contains(ua, "Presto") then "Presto"
    else "Unknown"
  }

  /**
   A reference definition of the chains: a rule fires when the agent holds
   one of `anyOf` and none of `noneOf`; the first rule that fires names the
   result.
   */
  datatype Rule = Rule(anyOf: seq<string>, noneOf: seq<string>, result: string)

  predicate Fires(rule: Rule, ua: string) {
    AnyKeyword(ua, rule.anyOf) && !AnyKeyword(ua, rule.noneOf)
  }

  function FirstRule(rules: seq<Rule>, ua: string, default: string): string {
    if |rules| == 0 then default
    else if Fires(rules[0], ua) then rules[0].result
    else FirstRule(rules[1..], ua, default)
  }

  /** The first-match reading: the default when no rule fires, else the result of the first rule that fires. */
  lemma {:induction false} FirstRuleMeaning(rules: seq<Rule>, ua: string, default: string)
    ensures (forall i :: 0 <= i < |rules| ==> !Fires(rules[i], ua)) ==> FirstRule(rules, ua, default) == default
    ensures forall i :: (0 <= i < |rules| && Fires(rules[i], ua) && (forall j :: 0 <= j < i ==> !Fires(rules[j], ua)))
                     ==> FirstRule(rules, ua, default) == rules[i].result
  {
    if |rules| > 0 {
      var r := FirstRule(rules, ua, default);
      if Fires(rules[0], ua) {
        forall i | 0 <= i < |rules| && Fires(rules[i], ua) && (forall j :: 0 <= j < i ==> !Fires(rules[j], ua))
          ensures r == rules[i].result
        {
        }
      } else {
        var tail := rules[1..];
        FirstRuleMeaning(tail, ua, default);
        assert r == FirstRule(tail, ua, default);
        forall i | 0 <= i < |rules| && Fires(rules[i], ua) && (forall j :: 0 <= j < i ==> !Fires(rules[j], ua))
          ensures r == rules[i].result
        {
          assert tail[i - 1] == rules[i];
          forall j | 0 <= j < i - 1 ensures !Fires(tail[j], ua) {
            assert tail[j] == rules[j + 1];
          }
        }
        if forall i :: 0 <= i < |rules| ==> !Fires(rules[i], ua) {
          forall j | 0 <= j < |tail| ensures !Fires(tail[j], ua) {
            assert tail[j] == rules[j + 1];
          }
        }
      }
    }
  }

  const OsRules: seq<Rule> := [
    Rule(["Windows"], [], "Windows"),
    Rule(["iPhone", "iPad"], [], "iOS"),
    Rule(["Mac OS"], [], "macOS"),
    Rule(["Android"], [], "Android"),
    Rule(["Linux"], [], "Linux")
  ]

  const BrowserRules: seq<Rule> := [
    Rule(["Chrome"], ["Edg"], "Chrome"),
    Rule(["Firefox"], [], "Firefox"),
    Rule(["Safari"], ["Chrome"], "Safari"),
    Rule(["Edg"], [], "Edge"),
    Rule(["Opera"], [], "Opera"),
    Rule(["MSIE", "Trident"], [], "Internet Explorer")
  ]

  const EngineRules: seq<Rule> := [
    Rule(["WebKit"], [], "WebKit"),
    Rule(["Gecko"], [], "Gecko"),
    Rule(["Trident"], [], "Trident"),
    Rule(["Presto"], [], "Presto")
  ]

  lemma AnyOne(ua: string, a: string)
    ensures AnyKeyword(ua, [a]) <==> Contains(ua, a)
  {
    if Contains(ua, a) { assert [a][0] == a; }
  }

  lemma AnyTwo(ua: string, a: string, b: string)
    ensures AnyKeyword(ua, [a, b]) <==> Contains(ua, a) || Contains(ua, b)
  {
    if Contains(ua, a) { assert [a, b][0] == a; }
    if Contains(ua, b) { assert [a, b][1] == b; }
  }

  lemma AnyNone(ua: string)
    ensures !AnyKeyword(ua, [])
  {
  }

  /** The if-chain of `getOperatingSystem` is the first-match reading of its rule table. */
  lemma OperatingSystemIsFirstMatch(ua: string)
    ensures OperatingSystem(ua) == FirstRule(OsRules, ua, "Unknown")
  {
    var d := "Unknown";
    var r0 := OsRules;
    var r1 := r0[1..];
    var r2 := r1[1..];
    var r3 := r2[1..];
    var r4 := r3[1..];
    assert r4 == [Rule(["Linux"], [], "Linux")];
    FirstRuleStep(r0, ua, d);
    FirstRuleStep(r1, ua, d);
    FirstRuleStep(r2, ua, d);
    FirstRuleStep(r3, ua, d);
    FirstRuleStep(r4, ua, d);
    assert r4[1..] == [];
    AnyNone(ua);
    AnyOne(ua, "Windows");
    AnyTwo(ua, "iPhone", "iPad");
    AnyOne(ua, "Mac OS");
    AnyOne(ua, "Android");
    AnyOne(ua, "Linux");
  }

  /** The if-chain of `getBrowserName` is the first-match reading of its rule table. */
  lemma BrowserNameIsFirstMatch(ua: string)
    ensures BrowserName(ua) == FirstRule(BrowserRules, ua, "Unknown")
  {
    var d := "Unknown";
    var r0 := BrowserRules;
    var r1 := r0[1..];
    var r2 := r1[1..];
    var r3 := r2[1..];
    var r4 := r3[1..];
    var r5 := r4[1..];
    assert r5 == [Rule(["MSIE", "Trident"], [], "Internet Explorer")];
    FirstRuleStep(r0, ua, d);
    FirstRuleStep(r1, ua, d);
    FirstRuleStep(r2, ua, d);
    FirstRuleStep(r3, ua, d);
    FirstRuleStep(r4, ua, d);
    FirstRuleStep(r5, ua, d);
    assert r5[1..] == [];
    AnyNone(ua);
    AnyOne(ua, "Chrome");
    AnyOne(ua, "Edg");
    AnyOne(ua, "Firefox");
    AnyOne(ua, "Safari");
    AnyOne(ua, "Opera");
    AnyTwo(ua, "MSIE", "Trident");
  }

  /** One step of the first-match reading. */
  lemma FirstRuleStep(rules: seq<Rule>, ua: string, default: string)
    requires |rules| > 0
    ensures FirstRule(rules, ua, default) ==
      if Fires(rules[0], ua) then rules[0].result else FirstRule(rules[1..], ua, default)
  {
  }

  /** The if-chain of `getBrowserEngine` is the first-match reading of its rule table. */
  lemma BrowserEngineIsFirstMatch(ua: string)
    ensures BrowserEngine(ua) == FirstRule(EngineRules, ua, "Unknown")
  {
    var d := "Unknown";
    var r0 := EngineRules;
    var r1 := r0[1..];
    var r2 := r1[1..];
    var r3 := r2[1..];
    assert r3 == [Rule(["Presto"], [], "Presto")];
    FirstRuleStep(r0, ua, d);
    FirstRuleStep(r1, ua, d);
    FirstRuleStep(r2, ua, d);
    FirstRuleStep(r3, ua, d);
    assert r3[1..] == [];
    AnyNone(ua);
    AnyOne(ua, "WebKit");
    AnyOne(ua, "Gecko");
    AnyOne(ua, "Trident");
    AnyOne(ua, "Presto");
  }

  // ---------------------------------------------------------------------
  // Browser version: the regular expression
  // (Chrome|Firefox|Safari|Edg|Opera|MSIE|Trident)\/(\d+)

  const VersionTokens: seq<string> := ["Chrome", "Firefox", "Safari", "Edg", "Opera", "MSIE", "Trident"]

  /** Token `t`, a slash and at least one digit start at index `i`. */
  predicate VersionAt(ua: string, t: string, i: nat) {
    OccursAt(ua, t + "/", i) && i + |t| + 1 < |ua| && IsDigit(ua[i + |t| + 1])
  }

  predicate MatchesAt(ua: string, i: nat) {
    exists k | 0 <= k < |VersionTokens| :: VersionAt(ua, VersionTokens[k], i)
  }

  /** The token that matches at `i`, tried in the alternation's order. */
  function TokenAt(ua: string, i: nat): (r: Option<string>)
    ensures r.Some? ==> r.value in VersionTokens && VersionAt(ua, r.value, i)
    ensures r.None? <==> !MatchesAt(ua, i)
  {
    if VersionAt(ua, "Chrome", i) then Some("Chrome")
    else if VersionAt(ua, "Firefox", i) then Some("Firefox")
    else if VersionAt(ua, "Safari", i) then Some("Safari")
    else if VersionAt(ua, "Edg", i) then Some("Edg")
    else if VersionAt(ua, "Opera", i) then Some("Opera")
    else if VersionAt(ua, "MSIE", i) then Some("MSIE")
    else if VersionAt(ua, "Trident", i) then Some("Trident")
    else None
  }

  /** The leftmost match at or after `i`: its position and token. */
  function FirstVersionMatch(ua: string, i: nat): (r: Option<(nat, string)>)
    ensures r.Some? ==> i <= r.value.0 && TokenAt(ua, r.value.0) == Some(r.value.1)
    ensures r.Some? ==> forall j :: i <= j < r.value.0 ==> !MatchesAt(ua, j)
    ensures r.None? ==> forall j :: i <= j ==> !MatchesAt(ua, j)
    decreases |ua| - i
  {
    if i >= |ua| then
      assert forall j :: i <= j ==> !MatchesAt(ua, j) by {
        forall j, k | i <= j && 0 <= k < |VersionTokens| ensures !VersionAt(ua, VersionTokens[k], j) { }
      }
      None
    else
      match TokenAt(ua, i)
      case Some(t) => Some((i, t))
      case None => FirstVersionMatch(ua, i + 1)
  }

  /** `getBrowserVersion`: the digit run of the leftmost match, or "Unknown". */
  function BrowserVersion(ua: string): (v: string)
    ensures v == "Unknown" || (|v| > 0 && forall k :: 0 <= k < |v| ==> IsDigit(v[k]))
    ensures v == "Unknown" <==> forall j :: 0 <= j ==> !MatchesAt(ua, j)
  {
    match FirstVersionMatch(ua, 0)
    case None => "Unknown"
    case Some((i, t)) =>
      var rest := ua[i + |t| + 1..];
      var n := DigitRun(rest, Decimal);
      assert DigitVal(rest[0], Decimal).Some?;
      assert forall k :: 0 <= k < n ==> IsDigit(rest[k]) by {
        forall k | 0 <= k < n ensures IsDigit(rest[k]) {
          assert DigitVal(rest[k], Decimal).Some?;
        }
      }
      assert !IsDigit("Unknown"[0]);
      rest[..n]
  }

  // ---------------------------------------------------------------------
  // Performance profile and settings

  datatype Profile = Low | Medium | High

  function Rank(p: Profile): nat {
    match p
    case Low => 0
    case Medium => 1
    case High => 2
  }

  /** JavaScript `x || 4`: an absent or zero reading falls back to 4. */
  function CoresOr(c: Option<nat>): (r: nat)
    ensures r > 0
  {
    if c.None? || c.value == 0 then 4 else c.value
  }

  function MemoryOr(m: Option<real>): (r: real)
    ensures r != 0.0
  {
    if m.None? || m.value == 0.0 then 4.0 else m.value
  }

  function Min(a: real, b: real): real {
    if a <= b then a else b
  }

  /** The capability score behind `getPerformanceProfile`. */
  function Score(env: Env): real {
    (CoresOr(env.hardwareConcurrency) * 10) as real
      + MemoryOr(env.deviceMemory) * 20.0
      + (if TouchSupported(env) then 0.0 else 30.0)
      + Min(env.screenWidth as real / 50.0, 40.0)
  }

  function ProfileOf(score: real): (p: Profile)
    ensures p == High <==> score >= 150.0
    ensures p == Medium <==> 80.0 <= score < 150.0
    ensures p == Low <==> score < 80.0
  {
    if score >= 150.0 then High
    else if score >= 80.0 then Medium
    else Low
  }

  /**
   `getPerformanceProfile`: a device without touch that has at least the
   default readings is "high"; a single-core touch device with at most
   1 GB is "low", whatever its screen.
   */
  function PerformanceProfile(env: Env): (p: Profile)
    ensures !TouchSupported(env) && CoresOr(env.hardwareConcurrency) >= 4 && MemoryOr(env.deviceMemory) >= 4.0
      ==> p == High
    ensures TouchSupported(env) && CoresOr(env.hardwareConcurrency) == 1 && MemoryOr(env.deviceMemory) <= 1.0
      ==> p == Low
  {
    ProfileOf(Score(env))
  }

  /** A higher score never yields a lower profile. */
  lemma ProfileMonotone(a: real, b: real)
    requires a <= b
    ensures Rank(ProfileOf(a)) <= Rank(ProfileOf(b))
  {
  }

  /**
   With the default readings (4 cores, 4 GB) a device without touch is
   always "high"; a touch device is at least "medium" and "high" exactly
   when its screen is at least 1500 wide.
   */
  lemma DefaultReadingsProfile(env: Env)
    requires env.hardwareConcurrency.None? && env.deviceMemory.None?
    ensures !TouchSupported(env) ==> PerformanceProfile(env) == High
    ensures TouchSupported(env) ==> PerformanceProfile(env) != Low
    ensures TouchSupported(env) ==> (PerformanceProfile(env) == High <==> env.screenWidth >= 1500)
  {
    var w := env.screenWidth as real / 50.0;
    assert Score(env) == 40.0 + 80.0 + (if TouchSupported(env) then 0.0 else 30.0) + Min(w, 40.0);
    assert w >= 0.0;
    assert env.screenWidth >= 1500 <==> w >= 30.0;
  }

  /** More cores, with everything else equal, never lower the profile. */
  lemma MoreCoresNeverLower(env: Env, more: nat)
    requires env.hardwareConcurrency.Some? && 0 < env.hardwareConcurrency.value <= more
    ensures Rank(PerformanceProfile(env)) <= Rank(PerformanceProfile(env.(hardwareConcurrency := Some(more))))
  {
    ProfileMonotone(Score(env), Score(env.(hardwareConcurrency := Some(more))));
  }

  datatype RecommendedSettings = RecommendedSettings(
    particleCount: int, maxVelocity: int, interactionRadius: int, damping: real, targetFps: int)

  /**
   `getRecommendedSettings`: the baseline by device type, then scaled and
   floored by the profile. At these baselines the double-precision products
   round to the exact ones, so floor of the exact product is the source's value.
   */
  function Recommended(deviceType: DeviceType, performance: Profile): (s: RecommendedSettings)
    ensures s.damping == 0.98
    ensures s.maxVelocity == (if deviceType == Mobile then 3 else 5)
  {
    var mobile := deviceType == Mobile;
    var count := if mobile then 5000 else 10000;
    var fps := if mobile then 30 else 60;
    var base := RecommendedSettings(count, if mobile then 3 else 5, 150, 0.98, fps);
    match performance
    case Low =>
      base.(particleCount := (count as real * 0.6).Floor,
            targetFps := (fps as real * 0.7).Floor,
            interactionRadius := (150.0 * 0.8).Floor)
    case High =>
      base.(particleCount := (count as real * 1.2).Floor,
            interactionRadius := (150.0 * 1.1).Floor)
    case Medium => base
  }

  /**
   The recommended settings, in numbers: a phone gets half a desktop's
   particles and frame rate under every profile, and a better profile never
   lowers the particle count or the interaction radius.
   */
  lemma RecommendedTable(t: DeviceType, p: Profile, q: Profile)
    ensures var s := Recommended(t, p);
      && s.particleCount == (if t == Mobile then 5000 else 10000) * (match p case Low => 6 case Medium => 10 case High => 12) / 10
      && s.interactionRadius == (match p case Low => 120 case Medium => 150 case High => 165)
      && s.targetFps == (if t == Mobile then 30 else 60) * (if p == Low then 7 else 10) / 10
    ensures 2 * Recommended(Mobile, p).particleCount == Recommended(t, p).particleCount || t == Mobile
    ensures Rank(p) <= Rank(q) ==> Recommended(t, p).particleCount <= Recommended(t, q).particleCount
    ensures Rank(p) <= Rank(q) ==> Recommended(t, p).interactionRadius <= Recommended(t, q).interactionRadius
  {
    assert (5000 as real * 0.6).Floor == 3000;
    assert (10000 as real * 0.6).Floor == 6000;
    assert (5000 as real * 1.2).Floor == 6000;
    assert (10000 as real * 1.2).Floor == 12000;
    assert (30 as real * 0.7).Floor == 21;
    assert (60 as real * 0.7).Floor == 42;
    assert (150.0 * 0.8).Floor == 120;
    assert (150.0 * 1.1).Floor == 165;
  }

  datatype PerformanceSettings = PerformanceSettings(
    particleCount: nat, quality: string, targetFps: nat, maxVelocity: real,
    interactionRadius: nat, enableTrails: bool, enableGlow: bool)

  /** `getPerformanceSettings`, keyed on the flags `detect` derives from the device type. */
  function PerformanceSettingsFor(info: DeviceInfo): PerformanceSettings {
    if info.isMobile then PerformanceSettings(5000, "high", 30, 4.0, 120, false, true)
    else if info.isTablet then PerformanceSettings(7500, "high", 45, 4.5, 135, true, true)
    else PerformanceSettings(10000, "maximum", 60, 5.0, 150, true, true)
  }

  // ---------------------------------------------------------------------
  // detect()

  datatype DeviceInfo = DeviceInfo(
    deviceType: DeviceType,
    isMobile: bool,
    isTablet: bool,
    isDesktop: bool,
    performance: Profile,
    touchSupported: bool,
    maxTouchPoints: nat,
    os: string,
    browser: string,
    browserVersion: string,
    recommended: RecommendedSettings)

  /** `detect`: exactly one of the three flags is set, the one naming the device type. */
  function Detect(env: Env): (info: DeviceInfo)
    ensures info.deviceType == GetDeviceType(env)
    ensures info.isMobile <==> info.deviceType == Mobile
    ensures info.isTablet <==> info.deviceType == Tablet
    ensures info.isDesktop <==> info.deviceType == Desktop
    ensures (if info.isMobile then 1 else 0) + (if info.isTablet then 1 else 0) + (if info.isDesktop then 1 else 0) == 1
    ensures info.recommended == Recommended(info.deviceType, info.performance)
  {
    var t := GetDeviceType(env);
    var p := PerformanceProfile(env);
    DeviceInfo(t, t == Mobile, t == Tablet, t == Desktop, p, TouchSupported(env), env.maxTouchPoints,
      OperatingSystem(env.userAgent), BrowserName(env.userAgent), BrowserVersion(env.userAgent),
      Recommended(t, p))
  }

  /** `getPerformanceSettings` follows the device type: 5000, 7500 or 10000 particles. */
  lemma PerformanceSettingsByType(env: Env)
    ensures var s := PerformanceSettingsFor(Detect(env));
      && (GetDeviceType(env) == Mobile ==> s.particleCount == 5000 && !s.enableTrails && s.targetFps == 30)
      && (GetDeviceType(env) == Tablet ==> s.particleCount == 7500 && s.enableTrails && s.targetFps == 45)
      && (GetDeviceType(env) == Desktop ==> s.particleCount == 10000 && s.quality == "maximum" && s.targetFps == 60)
  {
  }

  // ---------------------------------------------------------------------
  // Properties of the classification

  /** Any agent containing "iPad" is a tablet, and never a phone. */
  lemma IPadIsTablet(env: Env)
    requires Contains(env.userAgent, "iPad")
    ensures GetDeviceType(env) == Tablet
    ensures !IsMobile(env)
  {
  }

  /** A phone needs a mobile keyword, no "iPad", touch, and a screen narrower than 768. */
  lemma MobileConditions(env: Env)
    ensures IsMobile(env) <==>
      && AnyKeyword(env.userAgent, MobileKeywords)
      && !Contains(env.userAgent, "iPad")
      && TouchSupported(env)
      && env.screenWidth < 768
  {
  }

  /** A touch device is a tablet when its screen is in [768, 1024) or its agent says "Mac" but not "iPhone". */
  lemma TouchTablet(env: Env)
    requires TouchSupported(env)
    requires 768 <= env.screenWidth < 1024 || (Contains(env.userAgent, "Mac") && !Contains(env.userAgent, "iPhone"))
    ensures GetDeviceType(env) == Tablet
  {
  }

  /** Without touch there is no phone, and a tablet needs "iPad" or a tablet keyword in the agent. */
  lemma NoTouchIsNotPhone(env: Env)
    requires !TouchSupported(env)
    ensures GetDeviceType(env) != Mobile
    ensures GetDeviceType(env) == Tablet <==>
      Contains(env.userAgent, "iPad") || AnyKeyword(env.userAgent, TabletKeywords)
  {
  }

  /** An iPhone agent that also says "Mac OS" (as iPhone agents do) is iOS, unless it says "Windows". */
  lemma IPhoneIsIos(ua: string)
    requires Contains(ua, "iPhone") && !Contains(ua, "Windows")
    ensures OperatingSystem(ua) == "iOS"
  {
  }

  /**
   Agents that carry several browser names resolve by the chain: Edge
   agents (which also say Chrome and Safari) are Edge, Chrome agents (which
   also say Safari) are Chrome, and an Opera agent that signs itself only
   "OPR" is not recognised as Opera.
   */
  lemma BrowserNameResolution(ua: string)
    ensures Contains(ua, "Edg") && !Contains(ua, "Firefox") && Contains(ua, "Chrome") ==> BrowserName(ua) == "Edge"
    ensures Contains(ua, "Chrome") && !Contains(ua, "Edg") ==> BrowserName(ua) == "Chrome"
    ensures BrowserName(ua) == "Safari" ==> !Contains(ua, "Chrome") && !Contains(ua, "Firefox")
    ensures BrowserName(ua) == "Opera" ==> Contains(ua, "Opera")
    ensures (&& !Contains(ua, "Chrome") && !Contains(ua, "Firefox") && !Contains(ua, "Safari") && !Contains(ua, "Edg")
             && !Contains(ua, "Opera") && !Contains(ua, "MSIE") && !Contains(ua, "Trident"))
            ==> BrowserName(ua) == "Unknown"
  {
  }
}
