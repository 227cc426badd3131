/**
 The V13 storybook generator: a story name is taken from the command line
 or made from the configured title, every page of the configuration is
 filled into the HTML template by a fixed chain of placeholder
 replacements, and the pages are written as `page-{i}.html` into the
 story's folder after its old HTML files are cleared.
 */
module Storybook {
  import opened Wrappers
  import opened Strings

  // ---------------------------------------------------------------------
  // The story name

  const DefaultName: string := "my-story"

  /** A character that survives the slug rewrite: a lower-case letter, a digit, `-` or `_`. */
  predicate SlugChar(c: char) {
    'a' <= c <= 'z' || IsDigit(c) || c == '-' || c == '_'
  }

  /** One character of the lower-cased title: kept when alphanumeric, `-` or `_`, else a hyphen. */
  function CleanChar(c: char): (r: char)
    ensures SlugChar(r)
    ensures SlugChar(c) ==> r == c
    ensures SlugChar(LowerChar(c)) ==> r == LowerChar(c)
    ensures !SlugChar(LowerChar(c)) ==> r == '-'
  {
    var l := LowerChar(c);
    if IsAsciiAlnum(l) || l == '-' || l == '_' then l else '-'
  }

  function Clean(title: string): (r: string)
    ensures |r| == |title|
    ensures forall i :: 0 <= i < |r| ==> r[i] == CleanChar(title[i])
  {
    seq(|title|, i requires 0 <= i < |title| => CleanChar(title[i]))
  }

  /** The number of `c` characters `s` starts with. */
  function LeadingRun(s: string, c: char): (n: nat)
    ensures n <= |s|
    ensures forall i :: 0 <= i < n ==> s[i] == c
    ensures n < |s| ==> s[n] != c
  {
    if |s| > 0 && s[0] == c then 1 + LeadingRun(s[1..], c) else 0
  }

  /** The number of `c` characters `s` ends with. */
  function TrailingRun(s: string, c: char): (n: nat)
    ensures n <= |s|
    ensures forall i :: |s| - n <= i < |s| ==> s[i] == c
    ensures n < |s| ==> s[|s| - 1 - n] != c
  {
    if |s| > 0 && s[|s| - 1] == c then 1 + TrailingRun(s[..|s| - 1], c) else 0
  }

  /**
   Python `strip('-')`: the hyphens at both ends removed. What is left is the
   slice between an all-hyphen prefix and an all-hyphen suffix, without
   hyphens at its own ends, and empty only for an all-hyphen input.
   */
  function StripDashes(s: string): (r: string)
    ensures exists a, b ::
      && 0 <= a <= b <= |s| && r == s[a..b]
      && (forall i :: 0 <= i < a ==> s[i] == '-')
      && (forall i :: b <= i < |s| ==> s[i] == '-')
    ensures r == "" <==> forall i :: 0 <= i < |s| ==> s[i] == '-'
    ensures r != "" ==> r[0] != '-' && r[|r| - 1] != '-'
  {
    var a := LeadingRun(s, '-');
    var t := s[a..];
    var n := TrailingRun(t, '-');
    assert t[..|t| - n] == s[a..|s| - n];
    assert forall i :: |s| - n <= i < |s| ==> s[i] == t[i - a];
    if a < |s| then
      assert t[0] != '-';
      assert n < |t|;
      t[..|t| - n]
    else t[..|t| - n]
  }

  /**
   The cleaned, stripped title, or the default name when nothing is left:
   always a slug.
   */
  function Slug(title: string): (name: string)
    ensures IsSlug(name)
    ensures StripDashes(Clean(title)) != "" ==> name == StripDashes(Clean(title))
    ensures StripDashes(Clean(title)) == "" ==> name == DefaultName
  {
    var s := StripDashes(Clean(title));
    StripDashesChars(Clean(title));
    DefaultIsSlug();
    if s == "" then DefaultName else s
  }

  /** A usable folder name: non-empty, slug characters only, no hyphen at either end. */
  predicate IsSlug(s: string) {
    && |s| > 0
    && (forall i :: 0 <= i < |s| ==> SlugChar(s[i]))
    && s[0] != '-' && s[|s| - 1] != '-'
  }

  /** What reading the title from `story-config.json` gives. */
  datatype TitleLookup =
    | Unreadable        // no file, invalid JSON, or a `story` or `title` of the wrong type
    | Untitled          // no `story` object or no `title` in it
    | Title(title: string)

  /**
   `get_story_name`: the first command-line argument as given, else the
   slug of the configured title, the default name when no title can be read.
   */
  function StoryName(argv: seq<string>, lookup: TitleLookup): (name: string)
    ensures |argv| > 1 ==> name == argv[1]
    ensures |argv| <= 1 ==> IsSlug(name)
    ensures |argv| <= 1 && !lookup.Title? ==> name == DefaultName
    ensures |argv| <= 1 && lookup.Title? ==> name == Slug(lookup.title)
  {
    DefaultIsSlug();
    SlugFixed(DefaultName);
    if |argv| > 1 then argv[1]
    else
      match lookup
      case Unreadable => DefaultName
      case Untitled => Slug(DefaultName)
      case Title(t) => Slug(t)
  }

  /** A string without hyphens at its ends is its own stripped form. */
  lemma StripDashesFixed(s: string)
    requires |s| > 0 ==> s[0] != '-' && s[|s| - 1] != '-'
    ensures StripDashes(s) == s
  {
  }

  /** Stripping keeps only characters of the input. */
  lemma StripDashesChars(s: string)
    requires forall i :: 0 <= i < |s| ==> SlugChar(s[i])
    ensures forall i :: 0 <= i < |StripDashes(s)| ==> SlugChar(StripDashes(s)[i])
  {
    var a := LeadingRun(s, '-');
    var t := s[a..];
    assert forall i :: 0 <= i < |t| ==> SlugChar(t[i]);
  }

  lemma DefaultIsSlug()
    ensures IsSlug(DefaultName)
  {
    assert forall i :: 0 <= i < |DefaultName| ==> SlugChar(DefaultName[i]);
  }

  /** A slug is its own slug, so the rewrite is idempotent. */
  lemma SlugFixed(s: string)
    requires IsSlug(s)
    ensures Slug(s) == s
  {
    assert Clean(s) == s;
    StripDashesFixed(s);
  }

  lemma SlugIdempotent(title: string)
    ensures Slug(Slug(title)) == Slug(title)
  {
    SlugFixed(Slug(title));
  }

  /** A title with capitals, a space and punctuation: lower-cased, hyphenated, with the trailing hyphen stripped. */
  lemma SlugOfTitle()
    ensures Slug("Hi Bo!") == "hi-bo"
  {
    var c := Clean("Hi Bo!");
    assert c == "hi-bo-" by {
      assert c[0] == 'h' && c[1] == 'i' && c[2] == '-' && c[3] == 'b' && c[4] == 'o' && c[5] == '-';
    }
    assert LeadingRun(c, '-') == 0;
    assert TrailingRun(c, '-') == 1 by {
      assert c[..5] == "hi-bo";
      assert TrailingRun("hi-bo", '-') == 0;
    }
    assert StripDashes(c) == "hi-bo";
  }

  /** An all-punctuation title leaves nothing after stripping, so the default name is used. */
  lemma SlugOfPunctuation()
    ensures Slug("!?") == DefaultName
  {
    var c := Clean("!?");
    assert c == "--" by { assert c[0] == '-' && c[1] == '-'; }
  }

  // ---------------------------------------------------------------------
  // One page

  /**
   One entry of `pages`: the keys the generator reads, and every other
   member as its key and JSON text, which the copied and the embedded
   configuration carry along.
   */
  datatype PageData = PageData(
    pageNumber: int,
    image1Url: string,
    image2Url: string,
    backboardTexts: seq<string>,
    progressTitle: Option<string>,
    logoUrl: Option<string>,
    logoTargetUrl: Option<string>,
    others: seq<(string, string)>)

  /**
   The loaded configuration: the story's title, the pages, and the other
   members of the `story` object and of the top level, as key and JSON text.
   */
  datatype StoryConfig = StoryConfig(
    title: string,
    storyOthers: seq<(string, string)>,
    pages: seq<PageData>,
    others: seq<(string, string)>)

  /** How the configuration and its texts are rendered: Python's `json.dumps`, as parameters. */
  datatype Rendering = Rendering(
    dumpConfig: StoryConfig -> string,
    dumpTexts: seq<string> -> string,
    dumpIndented: StoryConfig -> string,
    logoDrawing: string)

  /** The names between the braces of the placeholders, in the order they are replaced. */
  const KeyNames: seq<string> := ["STORY_TITLE", "PAGE_NUMBER", "STORY_CONFIG", "IMAGE1_URL", "IMAGE2_URL",
    "BACKBOARD_TEXTS", "PROGRESS_TITLE", "LOGO_URL_DECLARATION", "LOGO_TARGET_URL", "LOGO_RENDERING_CODE"]

  /** A placeholder of the template: the name between double braces, e.g. `{{STORY_TITLE}}`. */
  function Placeholder(name: string): string {
    "{{" + name + "}}"
  }

  /** The placeholders, in the order they are replaced. */
  const Placeholders: seq<string> := [Placeholder(KeyNames[0]), Placeholder(KeyNames[1]), Placeholder(KeyNames[2]),
    Placeholder(KeyNames[3]), Placeholder(KeyNames[4]), Placeholder(KeyNames[5]), Placeholder(KeyNames[6]),
    Placeholder(KeyNames[7]), Placeholder(KeyNames[8]), Placeholder(KeyNames[9])]

  /** A present, non-empty string: Python's truth test on an optional string. */
  predicate Given(v: Option<string>) {
    v.Some? && v.value != ""
  }

  /** The three logo snippets: declaration, target declaration and drawing code. */
  function LogoParts(page: PageData, drawing: string): (parts: (string, string, string))
    ensures parts.0 == "" <==> !Given(page.logoUrl)
    ensures parts.1 != "" <==> Given(page.logoUrl) && Given(page.logoTargetUrl)
    ensures !Given(page.logoUrl) ==> parts.2 == ""
  {
    if Given(page.logoUrl) then
      ("const gamestopLogoUrl = '" + page.logoUrl.value + "';",
       if Given(page.logoTargetUrl) then "const logoTargetUrl = '" + page.logoTargetUrl.value + "';" else "",
       drawing)
    else ("", "", "")
  }

  /** The progress title, `Page {n}` by default. */
  function ProgressTitle(page: PageData, n: int): string {
    page.progressTitle.GetOr("Page " + IntToString(n))
  }

  /** The text substituted for each placeholder, in the same order. */
  function Values(config: StoryConfig, page: PageData, n: int, render: Rendering): (vs: seq<string>)
    ensures |vs| == |Placeholders|
  {
    var logo := LogoParts(page, render.logoDrawing);
    [config.title, IntToString(n), render.dumpConfig(config), page.image1Url, page.image2Url,
     render.dumpTexts(page.backboardTexts), ProgressTitle(page, n), logo.0, logo.1, logo.2]
  }

  /** Replace the placeholders from index `k` on, one after the other. */
  function ReplaceFrom(html: string, vs: seq<string>, k: nat): string
    requires |vs| == |Placeholders| && k <= |Placeholders|
    decreases |Placeholders| - k
  {
    if k == |Placeholders| then html
    else ReplaceFrom(ReplaceAll(html, Placeholders[k], vs[k]), vs, k + 1)
  }

  /**
   `generate_page`: the template with the ten replacements applied in
   order. A template without placeholders is written out unchanged.
   */
  function GeneratePage(template: string, config: StoryConfig, page: PageData, n: int, render: Rendering): (html: string)
    ensures FreeFrom(template, 0) ==> html == template
  {
    var vs := Values(config, page, n, render);
    if FreeFrom(template, 0) then
      ReplaceFromFree(template, vs, 0);
      ReplaceFrom(template, vs, 0)
    else ReplaceFrom(template, vs, 0)
  }

  /** Text that holds none of the placeholders from index `k` on. */
  predicate FreeFrom(s: string, k: nat) {
    forall j :: k <= j < |Placeholders| ==> !Contains(s, Placeholders[j])
  }

  lemma {:induction false} ReplaceFromFree(html: string, vs: seq<string>, k: nat)
    requires |vs| == |Placeholders| && k <= |Placeholders|
    requires FreeFrom(html, k)
    ensures ReplaceFrom(html, vs, k) == html
    decreases |Placeholders| - k
  {
    if k < |Placeholders| {
      ReplaceAllAbsent(html, Placeholders[k], vs[k]);
      ReplaceFromFree(html, vs, k + 1);
    }
  }

  /** A page without a logo URL gets empty logo snippets; a target alone declares nothing. */
  lemma NoLogo(config: StoryConfig, page: PageData, n: int, render: Rendering)
    requires !Given(page.logoUrl)
    ensures var vs := Values(config, page, n, render);
      vs[7] == "" && vs[8] == "" && vs[9] == ""
  {
  }

  // ---------------------------------------------------------------------
  // Filling a template

  /** Every placeholder is a distinct non-empty brace-free name between double braces. */
  lemma PlaceholderKeys()
    ensures |KeyNames| == |Placeholders| == 10
    ensures forall i :: 0 <= i < |Placeholders| ==> Placeholders[i] == Placeholder(KeyNames[i])
    ensures forall i :: 0 <= i < |KeyNames| ==> |KeyNames[i]| > 0 && BraceFree(KeyNames[i])
    ensures forall i, j :: 0 <= i < |KeyNames| && 0 <= j < |KeyNames| && i != j ==> KeyNames[i] != KeyNames[j]
  {
    NamesBraceFree();
    NamesDistinct();
  }

  lemma NamesBraceFree()
    ensures forall i :: 0 <= i < |KeyNames| ==> |KeyNames[i]| > 0 && BraceFree(KeyNames[i])
  {
  }

  lemma NamesDistinct()
    ensures forall i, j :: 0 <= i < |KeyNames| && 0 <= j < |KeyNames| && i != j ==> KeyNames[i] != KeyNames[j]
  {
  }

  /** Inside a placeholder, `{{` occurs only at its start. */
  lemma KeyOpensOnce(name: string, m: nat)
    requires BraceFree(name) && 0 < m < |Placeholder(name)| - 1
    ensures !(Placeholder(name)[m] == '{' && Placeholder(name)[m + 1] == '{')
  {
    var k := Placeholder(name);
    if m >= 2 && m < |k| - 2 {
      assert k[m] == name[m - 2];
    } else if m == 1 && |name| > 0 {
      assert k[2] == name[0];
    }
  }

  /** A placeholder at the front of text is that text's placeholder only when the names agree. */
  lemma KeyAtFront(n1: string, n2: string, x: string)
    requires BraceFree(n1) && BraceFree(n2)
    ensures StartsWith(Placeholder(n1) + x, Placeholder(n2)) ==> n1 == n2
  {
    var a := Placeholder(n1) + x;
    var b := Placeholder(n2);
    if |n2| < |n1| {
      assert a[|n2| + 2] == n1[|n2|];
      assert b[|n2| + 2] == '}';
      assert |b| <= |a| ==> a[..|b|][|n2| + 2] != b[|n2| + 2];
    } else if |n1| < |n2| {
      assert a[|n1| + 2] == '}';
      assert b[|n1| + 2] == n2[|n1|];
      assert |b| <= |a| ==> a[..|b|][|n1| + 2] != b[|n1| + 2];
    } else if StartsWith(a, b) {
      assert a[..|b|] == b;
      assert n1 == a[2..|n1| + 2];
      assert n2 == b[2..|n2| + 2];
    }
  }

  /** Text that neither holds `{{` nor ends with `{`: it cannot hold or start a placeholder. */
  predicate PlaceholderFree(s: string) {
    !Contains(s, "{{") && !EndsWith(s, "{")
  }

  /** An occurrence of a placeholder starts with two opening braces. */
  lemma KeyOccurs(s: string, name: string, m: nat)
    ensures OccursAt(s, Placeholder(name), m) ==> m + 1 < |s| && s[m] == '{' && s[m + 1] == '{'
  {
    if OccursAt(s, Placeholder(name), m) {
      var k := Placeholder(name);
      assert s[m..m + |k|][..2] == "{{";
    }
  }

  /** Two characters that are not both opening braces, where `{{` cannot occur. */
  lemma NoOpenAt(s: string, m: nat)
    requires m + 1 < |s| && !OccursAt(s, "{{", m)
    ensures !(s[m] == '{' && s[m + 1] == '{')
  {
    assert s[m..m + 2] == [s[m], s[m + 1]];
  }

  lemma PlaceholderFreeHoldsNoKey(s: string, name: string)
    requires PlaceholderFree(s)
    ensures !Contains(s, Placeholder(name))
  {
    forall m | 0 <= m <= |s|
      ensures !OccursAt(s, Placeholder(name), m)
    {
      KeyOccurs(s, name, m);
      if m + 1 < |s| {
        NoOpenAt(s, m);
      }
    }
  }

  /** A template as literal text and placeholders, `Hole(k)` standing for `Placeholders[k]`. */
  datatype Part = Lit(text: string) | Hole(key: nat)

  predicate Keyed(parts: seq<Part>) {
    forall i :: 0 <= i < |parts| && parts[i].Hole? ==> parts[i].key < |Placeholders|
  }

  /** One part once the placeholders before `k` hold their values. */
  function PartText(p: Part, vs: seq<string>, k: nat): string
    requires |vs| == |Placeholders| && (p.Hole? ==> p.key < |Placeholders|)
  {
    match p
    case Lit(t) => t
    case Hole(j) => if j < k then vs[j] else Placeholders[j]
  }

  function Layout(parts: seq<Part>, vs: seq<string>, k: nat): string
    requires |vs| == |Placeholders| && Keyed(parts)
  {
    if |parts| == 0 then "" else PartText(parts[0], vs, k) + Layout(parts[1..], vs, k)
  }

  /** The template text the parts spell. */
  function TemplateText(parts: seq<Part>): string
    requires Keyed(parts)
  {
    if |parts| == 0 then ""
    else
      match parts[0]
      case Lit(t) => t + TemplateText(parts[1..])
      case Hole(j) => Placeholders[j] + TemplateText(parts[1..])
  }

  /** Every placeholder of the template holding its value. */
  function Fill(parts: seq<Part>, vs: seq<string>): string
    requires |vs| == |Placeholders| && Keyed(parts)
  {
    if |parts| == 0 then ""
    else
      match parts[0]
      case Lit(t) => t + Fill(parts[1..], vs)
      case Hole(j) => vs[j] + Fill(parts[1..], vs)
  }

  lemma {:induction false} LayoutEnds(parts: seq<Part>, vs: seq<string>)
    requires |vs| == |Placeholders| && Keyed(parts)
    ensures Layout(parts, vs, 0) == TemplateText(parts)
    ensures Layout(parts, vs, |Placeholders|) == Fill(parts, vs)
  {
    if |parts| > 0 {
      LayoutEnds(parts[1..], vs);
    }
  }

  /** The text of a part, before and after the placeholder `k` is replaced, when the values are inert. */
  lemma PartReplaced(p: Part, vs: seq<string>, k: nat)
    requires |vs| == |Placeholders| && k < |Placeholders| && (p.Hole? ==> p.key < |Placeholders|)
    requires p.Lit? ==> PlaceholderFree(p.text)
    requires forall j :: 0 <= j < |vs| ==> PlaceholderFree(vs[j])
    ensures ReplaceAll(PartText(p, vs, k), Placeholders[k], vs[k]) == PartText(p, vs, k + 1)
  {
    PlaceholderKeys();
    var key := Placeholders[k];
    var t := PartText(p, vs, k);
    match p
    case Lit(_) =>
      PlaceholderFreeHoldsNoKey(t, KeyNames[k]);
      ReplaceAllAbsent(t, key, vs[k]);
    case Hole(j) =>
      if j < k {
        PlaceholderFreeHoldsNoKey(t, KeyNames[k]);
        ReplaceAllAbsent(t, key, vs[k]);
      } else if j == k {
        ReplaceWhole(key, vs[k]);
      } else {
        forall m | 0 <= m <= |t|
          ensures !OccursAt(t, key, m)
        {
          KeyOccurs(t, KeyNames[k], m);
          if m == 0 {
            assert t + "" == t;
            KeyAtFront(KeyNames[j], KeyNames[k], "");
          } else if m + 1 < |t| {
            KeyOpensOnce(KeyNames[j], m);
          }
        }
        ReplaceAllAbsent(t, key, vs[k]);
      }
  }

  /** No occurrence of the placeholder `k` starts in one part and runs into the next. */
  lemma PartNoStraddle(p: Part, vs: seq<string>, k: nat, rest: string)
    requires |vs| == |Placeholders| && k < |Placeholders| && (p.Hole? ==> p.key < |Placeholders|)
    requires p.Lit? ==> PlaceholderFree(p.text)
    requires forall j :: 0 <= j < |vs| ==> PlaceholderFree(vs[j])
    ensures NoStraddle(PartText(p, vs, k), rest, Placeholders[k])
  {
    var a := PartText(p, vs, k);
    forall m | 0 <= m < |a| < m + |Placeholders[k]|
      ensures !OccursAt(a + rest, Placeholders[k], m)
    {
      if p.Hole? && p.key >= k {
        KeyNoStraddleAt(p.key, k, rest, m);
      } else {
        FreeNoStraddleAt(a, k, rest, m);
      }
    }
  }

  /** A placeholder still in the text is closed by its own `}}`, so no later key starts inside it and runs out. */
  lemma KeyNoStraddleAt(j: nat, k: nat, rest: string, m: nat)
    requires k <= j < |Placeholders|
    requires m < |Placeholders[j]| < m + |Placeholders[k]|
    ensures !OccursAt(Placeholders[j] + rest, Placeholders[k], m)
  {
    PlaceholderKeys();
    var a := Placeholders[j];
    KeyOccurs(a + rest, KeyNames[k], m);
    if m == 0 {
      KeyAtFront(KeyNames[j], KeyNames[k], rest);
    } else if m + 1 < |a| {
      KeyOpensOnce(KeyNames[j], m);
      assert (a + rest)[m] == a[m] && (a + rest)[m + 1] == a[m + 1];
    } else {
      assert (a + rest)[m] == a[|a| - 1] == '}';
    }
  }

  /** Text free of placeholders has no `{{` and does not end in `{`, so no key starts inside it and runs out. */
  lemma FreeNoStraddleAt(a: string, k: nat, rest: string, m: nat)
    requires PlaceholderFree(a) && k < |Placeholders|
    requires m < |a| < m + |Placeholders[k]|
    ensures !OccursAt(a + rest, Placeholders[k], m)
  {
    PlaceholderKeys();
    KeyOccurs(a + rest, KeyNames[k], m);
    if m + 1 < |a| {
      assert !OccursAt(a, "{{", m);
      NoOpenAt(a, m);
      assert (a + rest)[m] == a[m] && (a + rest)[m + 1] == a[m + 1];
    } else {
      assert a[|a| - 1..] != "{";
      assert a[|a| - 1..] == [a[|a| - 1]];
      assert (a + rest)[m] == a[|a| - 1];
    }
  }

  /** Replacing the placeholder `k` moves the layout one placeholder on. */
  lemma {:induction false} LayoutStep(parts: seq<Part>, vs: seq<string>, k: nat)
    requires |vs| == |Placeholders| && k < |Placeholders| && Keyed(parts)
    requires forall i :: 0 <= i < |parts| && parts[i].Lit? ==> PlaceholderFree(parts[i].text)
    requires forall j :: 0 <= j < |vs| ==> PlaceholderFree(vs[j])
    ensures ReplaceAll(Layout(parts, vs, k), Placeholders[k], vs[k]) == Layout(parts, vs, k + 1)
  {
    PlaceholderKeys();
    if |parts| == 0 {
      ReplaceAllAbsent("", Placeholders[k], vs[k]);
    } else {
      var rest := Layout(parts[1..], vs, k);
      PartNoStraddle(parts[0], vs, k, rest);
      ReplaceConcat(PartText(parts[0], vs, k), rest, Placeholders[k], vs[k]);
      PartReplaced(parts[0], vs, k);
      LayoutStep(parts[1..], vs, k);
    }
  }

  lemma {:induction false} ReplaceFromLayout(parts: seq<Part>, vs: seq<string>, k: nat)
    requires |vs| == |Placeholders| && k <= |Placeholders| && Keyed(parts)
    requires forall i :: 0 <= i < |parts| && parts[i].Lit? ==> PlaceholderFree(parts[i].text)
    requires forall j :: 0 <= j < |vs| ==> PlaceholderFree(vs[j])
    ensures ReplaceFrom(Layout(parts, vs, k), vs, k) == Layout(parts, vs, |Placeholders|)
    decreases |Placeholders| - k
  {
    if k < |Placeholders| {
      LayoutStep(parts, vs, k);
      ReplaceFromLayout(parts, vs, k + 1);
    }
  }

  /**
   Every placeholder of the template is replaced by its own value, when
   neither the template's text nor any value holds `{{` or ends with `{`
   (so no replacement makes or hides a later placeholder).
   */
  lemma GeneratePageFills(parts: seq<Part>, config: StoryConfig, page: PageData, n: int, render: Rendering)
    requires Keyed(parts)
    requires forall i :: 0 <= i < |parts| && parts[i].Lit? ==> PlaceholderFree(parts[i].text)
    requires forall j :: 0 <= j < |Placeholders| ==> PlaceholderFree(Values(config, page, n, render)[j])
    ensures GeneratePage(TemplateText(parts), config, page, n, render) == Fill(parts, Values(config, page, n, render))
  {
    var vs := Values(config, page, n, render);
    LayoutEnds(parts, vs);
    ReplaceFromLayout(parts, vs, 0);
  }

  // ---------------------------------------------------------------------
  // The whole story

  function PageFile(i: int): string {
    "page-" + IntToString(i) + ".html"
  }

  /** Distinct pages go to distinct files, so no page overwrites another. */
  lemma PageFileInjective(i: int, j: int)
    requires PageFile(i) == PageFile(j)
    ensures i == j
  {
    var s := PageFile(i);
    assert IntToString(i) == s[5..|s| - 5];
    assert IntToString(j) == s[5..|s| - 5];
    IntToStringInjective(i, j);
  }

  lemma PageFileIsHtml(i: int)
    ensures EndsWith(PageFile(i), ".html")
  {
    var s := PageFile(i);
    assert s[|s| - 5..] == ".html";
  }

  /** Page `i` (counting from 1) is generated when its `pageNumber` is `i`; others are skipped. */
  predicate Generated(pages: seq<PageData>, i: int) {
    1 <= i <= |pages| && pages[i - 1].pageNumber == i
  }

  /** Write the pages from index `i` on into the folder, a later write replacing an earlier one. */
  function WritePages(folder: map<string, string>, template: string, config: StoryConfig,
                      render: Rendering, i: nat): (out: map<string, string>)
    requires i >= 1
    ensures forall k :: k in folder ==> k in out
    ensures forall k :: k in out && k !in folder ==> EndsWith(k, ".html")
    decreases |config.pages| + 1 - i
  {
    if i > |config.pages| then folder
    else
      var next := if Generated(config.pages, i)
        then folder[PageFile(i) := GeneratePage(template, config, config.pages[i - 1], i, render)]
        else folder;
      PageFileIsHtml(i);
      WritePages(next, template, config, render, i + 1)
  }

  lemma WritePagesStep(folder: map<string, string>, template: string, config: StoryConfig,
                       render: Rendering, i: nat)
    requires 1 <= i <= |config.pages|
    ensures WritePages(folder, template, config, render, i)
      == WritePages(if Generated(config.pages, i)
                    then folder[PageFile(i) := GeneratePage(template, config, config.pages[i - 1], i, render)]
                    else folder, template, config, render, i + 1)
  {
  }

  /** A file no remaining page is written to keeps what it had. */
  lemma {:induction false} WritePagesElsewhere(folder: map<string, string>, template: string, config: StoryConfig,
                                               render: Rendering, i: nat, k: string)
    requires i >= 1
    requires forall j :: i <= j && Generated(config.pages, j) ==> PageFile(j) != k
    ensures var out := WritePages(folder, template, config, render, i);
      (k in out <==> k in folder) && (k in folder ==> out[k] == folder[k])
    decreases |config.pages| + 1 - i
  {
    if i <= |config.pages| {
      var next := if Generated(config.pages, i)
        then folder[PageFile(i) := GeneratePage(template, config, config.pages[i - 1], i, render)]
        else folder;
      WritePagesElsewhere(next, template, config, render, i + 1, k);
    }
  }

  /** Every generated page ends up in its own file with its own content. */
  lemma {:induction false} WritePagesWrites(folder: map<string, string>, template: string, config: StoryConfig,
                                            render: Rendering, i: nat, p: int)
    requires 1 <= i <= p && Generated(config.pages, p)
    ensures var out := WritePages(folder, template, config, render, i);
      PageFile(p) in out && out[PageFile(p)] == GeneratePage(template, config, config.pages[p - 1], p, render)
    decreases |config.pages| + 1 - i
  {
    var next := if Generated(config.pages, i)
      then folder[PageFile(i) := GeneratePage(template, config, config.pages[i - 1], i, render)]
      else folder;
    WritePagesStep(folder, template, config, render, i);
    if i < p {
      WritePagesWrites(next, template, config, render, i + 1, p);
    } else {
      assert PageFile(p) in next && next[PageFile(p)] == GeneratePage(template, config, config.pages[p - 1], p, render);
      forall j | i + 1 <= j && Generated(config.pages, j)
        ensures PageFile(j) != PageFile(p)
      {
        if PageFile(j) == PageFile(p) {
          PageFileInjective(j, p);
        }
      }
      WritePagesElsewhere(next, template, config, render, i + 1, PageFile(p));
    }
  }

  /** A file that was not there before is the file of a generated page. */
  lemma {:induction false} WritePagesOnly(folder: map<string, string>, template: string, config: StoryConfig,
                                          render: Rendering, i: nat, k: string)
    requires i >= 1
    requires k in WritePages(folder, template, config, render, i) && k !in folder
    ensures exists p :: i <= p && Generated(config.pages, p) && k == PageFile(p)
    decreases |config.pages| + 1 - i
  {
    if i <= |config.pages| {
      var next := if Generated(config.pages, i)
        then folder[PageFile(i) := GeneratePage(template, config, config.pages[i - 1], i, render)]
        else folder;
      if k in next {
        assert k == PageFile(i) && Generated(config.pages, i);
      } else {
        WritePagesOnly(next, template, config, render, i + 1, k);
      }
    }
  }

  datatype GenerateError = NoConfig | NoTemplate

  /** The folder with its `*.html` files removed. */
  function ClearHtml(folder: map<string, string>): (kept: map<string, string>)
    ensures forall k :: k in kept <==> k in folder && !EndsWith(k, ".html")
    ensures forall k :: k in kept ==> kept[k] == folder[k]
  {
    map k | k in folder && !EndsWith(k, ".html") :: folder[k]
  }

  /**
   `main`: the story name, and the folder's new contents given its old
   ones. A missing configuration or a missing or empty template stops the
   run before the folder is touched.
   */
  function Generate(argv: seq<string>, lookup: TitleLookup, config: Option<StoryConfig>, template: Option<string>,
                    folder: map<string, string>, render: Rendering): (r: Result<(string, map<string, string>), GenerateError>)
    ensures config.None? ==> r == Failure(NoConfig)
    ensures config.Some? && (template.None? || template.value == "") ==> r == Failure(NoTemplate)
    ensures r.Success? ==> r.value.0 == StoryName(argv, lookup)
    ensures r.Success? ==> "story-config.json" in r.value.1 && r.value.1["story-config.json"] == render.dumpIndented(config.value)
  {
    var name := StoryName(argv, lookup);
    if config.None? then Failure(NoConfig)
    else if template.None? || template.value == "" then Failure(NoTemplate)
    else
      var written := WritePages(ClearHtml(folder), template.value, config.value, render, 1);
      Success((name, written["story-config.json" := render.dumpIndented(config.value)]))
  }

  lemma ConfigFileNotHtml()
    ensures !EndsWith("story-config.json", ".html")
  {
    var s := "story-config.json";
    assert s[|s| - 5..][1] == 'j';
  }

  /**
   After a run the folder's HTML files are exactly the pages whose
   `pageNumber` matches their position, each holding its generated page;
   the other files are kept, except the copied configuration.
   */
  lemma GenerateContents(argv: seq<string>, lookup: TitleLookup, config: Option<StoryConfig>, template: Option<string>,
                         folder: map<string, string>, render: Rendering)
    ensures Generate(argv, lookup, config, template, folder, render).Failure?
      <==> config.None? || template.None? || template.value == ""
    ensures match Generate(argv, lookup, config, template, folder, render)
      case Failure(_) => true
      case Success((name, out)) =>
        && name == StoryName(argv, lookup)
        && "story-config.json" in out
        && out["story-config.json"] == render.dumpIndented(config.value)
        && (forall p :: Generated(config.value.pages, p) ==>
              PageFile(p) in out
              && out[PageFile(p)] == GeneratePage(template.value, config.value, config.value.pages[p - 1], p, render))
        && (forall k :: k in out && EndsWith(k, ".html") ==>
              exists p :: Generated(config.value.pages, p) && k == PageFile(p))
        && (forall k :: k in folder && !EndsWith(k, ".html") && k != "story-config.json" ==>
              k in out && out[k] == folder[k])
  {
    if config.Some? && template.Some? && template.value != "" {
      var c := config.value;
      var t := template.value;
      var kept := ClearHtml(folder);
      var written := WritePages(kept, t, c, render, 1);
      ConfigFileNotHtml();
      forall p | Generated(c.pages, p)
        ensures PageFile(p) in written && written[PageFile(p)] == GeneratePage(t, c, c.pages[p - 1], p, render)
      {
        WritePagesWrites(kept, t, c, render, 1, p);
        PageFileIsHtml(p);
      }
      forall k | k in written && EndsWith(k, ".html")
        ensures exists p :: Generated(c.pages, p) && k == PageFile(p)
      {
        WritePagesOnly(kept, t, c, render, 1, k);
      }
      forall k | k in folder && !EndsWith(k, ".html")
        ensures k in written && written[k] == folder[k]
      {
        forall j | 1 <= j && Generated(c.pages, j)
          ensures PageFile(j) != k
        {
          PageFileIsHtml(j);
        }
        WritePagesElsewhere(kept, t, c, render, 1, k);
      }
    }
  }
}
