/**
 The rewrites both storybook obfuscators share: moving image urls under
 `assets/images/` in the story configuration and in the page's
 `const image1Url = '...';` statements, rewriting the configuration
 embedded in a page as `const storyConfig = {...};`, and inserting the
 protection script before the closing head (or body) tag. JSON reading
 and writing are parameters: a text that does not parse reads as None.
 */
module AssetPaths {
  import opened Wrappers
  import opened Strings

  const AssetsPrefix: string := "assets/"
  const ImagesPrefix: string := "assets/images/"

  // ---------------------------------------------------------------------
  // The story configuration

  /** A JSON value: a string, or anything else (kept as its text). */
  datatype Value = Text(s: string) | NonText(repr: string)

  /** A page object: its two image fields when present, and every other member in order. */
  datatype Page = Page(image1Url: Option<Value>, image2Url: Option<Value>, others: seq<(string, Value)>)

  /** The configuration: its `pages` list when present, and every other member in order. */
  datatype Config = Config(pages: Option<seq<Page>>, others: seq<(string, Value)>)

  /** One url moved under assets/images/, after the ".png.png" repair when `repairPng`, unless already under assets/. */
  function FixUrl(u: string, repairPng: bool): (r: string)
    ensures StartsWith(r, AssetsPrefix)
    ensures StartsWith(u, AssetsPrefix) ==> r == u
    ensures !StartsWith(u, AssetsPrefix) ==> StartsWith(r, ImagesPrefix)
    ensures !StartsWith(u, AssetsPrefix) && (!repairPng || !Contains(u, ".png.png")) ==> r == ImagesPrefix + u
    ensures !StartsWith(u, AssetsPrefix) && repairPng ==> r[|ImagesPrefix|..] == ReplaceAll(u, ".png.png", ".png")
  {
    if StartsWith(u, AssetsPrefix) then u
    else
      var repaired := if repairPng then ReplaceAll(u, ".png.png", ".png") else u;
      assert repairPng && !Contains(u, ".png.png") ==> repaired == u by {
        if repairPng && !Contains(u, ".png.png") {
          ReplaceAllAbsent(u, ".png.png", ".png");
        }
      }
      assert (ImagesPrefix + repaired)[..|AssetsPrefix|] == AssetsPrefix;
      assert (ImagesPrefix + repaired)[..|ImagesPrefix|] == ImagesPrefix;
      assert (ImagesPrefix + repaired)[|ImagesPrefix|..] == repaired;
      ImagesPrefix + repaired
  }

  /** A field present with a string is fixed; a field present with any other value raises. */
  function FixField(v: Option<Value>, repairPng: bool): Result<Option<Value>, string> {
    match v
    case None => Success(None)
    case Some(Text(u)) => Success(Some(Text(FixUrl(u, repairPng))))
    case Some(NonText(_)) => Failure("AttributeError: 'startswith'")
  }

  function FixPage(p: Page, repairPng: bool): Result<Page, string> {
    match FixField(p.image1Url, repairPng)
    case Failure(e) => Failure(e)
    case Success(v1) =>
      match FixField(p.image2Url, repairPng)
      case Failure(e) => Failure(e)
      case Success(v2) => Success(Page(v1, v2, p.others))
  }

  /** Every page fixed in turn; the first failure stops the loop, and a success keeps the page count. */
  function FixPages(ps: seq<Page>, repairPng: bool): (r: Result<seq<Page>, string>)
    ensures r.Success? ==> |r.value| == |ps|
  {
    if |ps| == 0 then Success([])
    else
      match FixPage(ps[0], repairPng)
      case Failure(e) => Failure(e)
      case Success(q) =>
        match FixPages(ps[1..], repairPng)
        case Failure(e) => Failure(e)
        case Success(qs) => Success([q] + qs)
  }

  /**
   The loop over `config.get('pages', [])`: every page's image fields fixed
   in place. Only the pages change; the rewrite raises exactly when some
   page holds a non-string image field.
   */
  function RewriteConfig(c: Config, repairPng: bool): (r: Result<Config, string>)
    ensures r.Success? ==> r.value.(pages := c.pages) == c
    ensures c.pages.None? ==> r == Success(c)
    ensures r.Failure? <==> c.pages.Some? && exists i | 0 <= i < |c.pages.value| :: HasNonText(c.pages.value[i])
  {
    match c.pages
    case None => Success(c)
    case Some(ps) =>
      FixPagesFails(ps, repairPng);
      match FixPages(ps, repairPng)
      case Failure(e) => Failure(e)
      case Success(qs) => Success(c.(pages := Some(qs)))
  }

  /** A field changes exactly as `FixUrl` says, keeps its absence, and raises exactly on a non-string. */
  predicate FieldFixed(before: Option<Value>, after: Option<Value>, repairPng: bool) {
    && (before.None? <==> after.None?)
    && (before.Some? && before.value.Text? ==> after == Some(Text(FixUrl(before.value.s, repairPng))))
    && (before.Some? ==> before.value.Text?)
  }

  predicate HasNonText(p: Page) {
    (p.image1Url.Some? && p.image1Url.value.NonText?) || (p.image2Url.Some? && p.image2Url.value.NonText?)
  }

  /** The rewrite raises exactly when some page holds a non-string image field. */
  lemma {:induction false} FixPagesFails(ps: seq<Page>, repairPng: bool)
    ensures FixPages(ps, repairPng).Failure? <==> exists i | 0 <= i < |ps| :: HasNonText(ps[i])
    decreases |ps|
  {
    if |ps| > 0 {
      FixPagesFails(ps[1..], repairPng);
      assert forall i | 1 <= i < |ps| :: ps[1..][i - 1] == ps[i];
      if exists i | 1 <= i < |ps| :: HasNonText(ps[i]) {
        var i :| 1 <= i < |ps| && HasNonText(ps[i]);
        assert HasNonText(ps[1..][i - 1]);
      }
    }
  }

  /** A successful rewrite keeps the page count, every other member and every absent field, and fixes each url. */
  lemma {:induction false} FixPagesShape(ps: seq<Page>, repairPng: bool)
    requires FixPages(ps, repairPng).Success?
    ensures var qs := FixPages(ps, repairPng).value;
      && |qs| == |ps|
      && forall i | 0 <= i < |ps| ::
           && qs[i].others == ps[i].others
           && FieldFixed(ps[i].image1Url, qs[i].image1Url, repairPng)
           && FieldFixed(ps[i].image2Url, qs[i].image2Url, repairPng)
    decreases |ps|
  {
    if |ps| > 0 {
      FixPagesShape(ps[1..], repairPng);
      var qs := FixPages(ps, repairPng).value;
      var rest := FixPages(ps[1..], repairPng).value;
      assert qs == [FixPage(ps[0], repairPng).value] + rest;
      assert forall i | 1 <= i < |ps| :: qs[i] == rest[i - 1] && ps[i] == ps[1..][i - 1];
    }
  }

  /** Moving a url twice is moving it once. */
  lemma FixUrlIdempotent(u: string, repairPng: bool)
    ensures FixUrl(FixUrl(u, repairPng), repairPng) == FixUrl(u, repairPng)
  {
  }

  lemma {:induction false} FixPagesIdempotent(ps: seq<Page>, repairPng: bool)
    requires FixPages(ps, repairPng).Success?
    ensures FixPages(FixPages(ps, repairPng).value, repairPng) == FixPages(ps, repairPng)
    decreases |ps|
  {
    if |ps| > 0 {
      FixPagesIdempotent(ps[1..], repairPng);
      var q := FixPage(ps[0], repairPng).value;
      var qs := FixPages(ps, repairPng).value;
      assert qs == [q] + FixPages(ps[1..], repairPng).value;
      assert qs[1..] == FixPages(ps[1..], repairPng).value;
      match ps[0].image1Url {
        case None =>
        case Some(v) => FixUrlIdempotent(v.s, repairPng);
      }
      match ps[0].image2Url {
        case None =>
        case Some(v) => FixUrlIdempotent(v.s, repairPng);
      }
      assert FixPage(q, repairPng) == Success(q);
    }
  }

  /** Rewriting a rewritten configuration changes nothing. */
  lemma RewriteConfigIdempotent(c: Config, repairPng: bool)
    requires RewriteConfig(c, repairPng).Success?
    ensures RewriteConfig(RewriteConfig(c, repairPng).value, repairPng) == RewriteConfig(c, repairPng)
  {
    if c.pages.Some? {
      FixPagesIdempotent(c.pages.value, repairPng);
    }
  }

  // ---------------------------------------------------------------------
  // Image statements in the page

  /** The text a statement starts with, e.g. `const image1Url = '`. */
  function Opening(name: string, quote: char): string {
    "const " + name + " = " + [quote]
  }

  function Statement(name: string, quote: char, path: string): string {
    Opening(name, quote) + path + [quote] + ";"
  }

  /** How the matched statement is rewritten: as the source writes it, or as evidently intended. */
  datatype Fix = AsWritten | Corrected

  /**
   The quoted value when `s` starts with a whole statement: the opening,
   a non-empty run of non-quote characters, the quote and `;`.
   */
  function StatementValue(s: string, name: string, quote: char): (v: Option<string>)
    ensures v.Some? ==> |v.value| > 0 && |Statement(name, quote, v.value)| <= |s|
    ensures v.Some? ==> Contains(s, Opening(name, quote))
  {
    var o := Opening(name, quote);
    if !StartsWith(s, o) then None
    else
      StartsWithContains(s, o);
      match IndexOf(s[|o|..], [quote])
      case None => None
      case Some(k) =>
        if 0 < k && |o| + k + 1 < |s| && s[|o| + k + 1] == ';' then Some(s[|o|..|o| + k]) else None
  }

  /** A recognised statement is the opening, the value, the quote and `;`, and the value holds no quote. */
  lemma StatementValueShape(s: string, name: string, quote: char)
    requires StatementValue(s, name, quote).Some?
    ensures var path := StatementValue(s, name, quote).value;
      StartsWith(s, Statement(name, quote, path)) && CharFree(path, quote)
  {
    var o := Opening(name, quote);
    var t := s[|o|..];
    IndexOfFirst(t, [quote]);
    var k := IndexOf(t, [quote]).value;
    var path := s[|o|..|o| + k];
    assert t[k] == quote by { assert t[k..k + 1] == [quote]; }
    assert s[..|o| + k + 2] == s[..|o|] + path + [s[|o| + k]] + [s[|o| + k + 1]];
    forall i | 0 <= i < |path|
      ensures path[i] != quote
    {
      assert path[i] == t[i];
      assert !OccursAt(t, [quote], i);
      assert t[i..i + 1] == [t[i]];
    }
  }

  /** The replacement of a matched statement. */
  function Replacement(name: string, quote: char, path: string, fix: Fix): string
    requires |path| > 0
  {
    var stmt := Statement(name, quote, path);
    if StartsWith(path, AssetsPrefix) then stmt
    else if fix == AsWritten then ReplaceAll(stmt, path, ImagesPrefix + path)
    else Statement(name, quote, ImagesPrefix + path)
  }

  /** `re.sub` of one statement pattern over the page; a page without the statement's opening is left as it is. */
  function RewriteStatements(s: string, name: string, quote: char, fix: Fix): (r: string)
    ensures !Contains(s, Opening(name, quote)) ==> r == s
    decreases |s|
  {
    if |s| == 0 then ""
    else
      match StatementValue(s, name, quote)
      case Some(path) =>
        Replacement(name, quote, path, fix) + RewriteStatements(s[|Statement(name, quote, path)|..], name, quote, fix)
      case None =>
        NotContainsTail(s, Opening(name, quote));
        assert s == [s[0]] + s[1..];
        [s[0]] + RewriteStatements(s[1..], name, quote, fix)
  }

  /** A statement at the front is recognised with exactly its quoted value. */
  lemma StatementAtFront(name: string, quote: char, path: string, rest: string)
    requires |path| > 0 && CharFree(path, quote)
    ensures StatementValue(Statement(name, quote, path) + rest, name, quote) == Some(path)
  {
    var o := Opening(name, quote);
    var s := Statement(name, quote, path) + rest;
    assert s == o + (path + [quote] + ";" + rest);
    assert s[..|o|] == o;
    var t := s[|o|..];
    assert t == path + ([quote] + ";" + rest);
    IndexOfFirst(t, [quote]);
    assert OccursAt(t, [quote], |path|);
    forall j | 0 <= j < |path|
      ensures !OccursAt(t, [quote], j)
    {
      assert t[j..j + 1] == [path[j]];
    }
    assert s[|o| + |path| + 1] == ';';
    assert s[|o|..|o| + |path|] == path;
  }

  /** The corrected rewrite moves the quoted value with `FixUrl` and goes on after the statement. */
  lemma CorrectedStatement(name: string, quote: char, path: string, rest: string)
    requires |path| > 0 && CharFree(path, quote)
    ensures RewriteStatements(Statement(name, quote, path) + rest, name, quote, Corrected)
      == Statement(name, quote, FixUrl(path, false)) + RewriteStatements(rest, name, quote, Corrected)
  {
    var s := Statement(name, quote, path) + rest;
    StatementAtFront(name, quote, path, rest);
    assert s[|Statement(name, quote, path)|..] == rest;
  }

  /** As written, the statement is rewritten by replacing the value everywhere in it. */
  lemma AsWrittenStatement(name: string, quote: char, path: string, rest: string)
    requires |path| > 0 && CharFree(path, quote) && !StartsWith(path, AssetsPrefix)
    ensures RewriteStatements(Statement(name, quote, path) + rest, name, quote, AsWritten)
      == ReplaceAll(Statement(name, quote, path), path, ImagesPrefix + path) + RewriteStatements(rest, name, quote, AsWritten)
  {
    var s := Statement(name, quote, path) + rest;
    StatementAtFront(name, quote, path, rest);
    assert s[|Statement(name, quote, path)|..] == rest;
  }

  /** Replacing a character that occurs twice, outside the last two characters. */
  lemma ReplaceTwice(b: string, c: char, r: string, quote: char, rep: string)
    requires CharFree(b, c) && CharFree(r, c) && c != quote && c != ';'
    ensures ReplaceAll(b + [c] + r + [c] + [quote] + ";", [c], rep) == b + rep + r + rep + [quote] + ";"
  {
    var tail := [quote] + ";";
    assert b + [c] + r + [c] + [quote] + ";" == b + [c] + (r + [c] + tail);
    ReplaceStep(b, [c], r + [c] + tail, rep);
    ReplaceStep(r, [c], tail, rep);
    assert CharFree(tail, c);
    ReplaceNone(tail, [c], rep);
  }

  /**
   As written, a one-character value that also occurs once in the
   statement's opening gets the prefix in both places.
   */
  lemma AsWrittenInsertsTwice(name: string, quote: char, b: string, c: char, r: string)
    requires Opening(name, quote) == b + [c] + r
    requires CharFree(b, c) && CharFree(r, c) && c != quote && c != ';'
    ensures RewriteStatements(Statement(name, quote, [c]), name, quote, AsWritten)
      == b + (ImagesPrefix + [c]) + r + (ImagesPrefix + [c]) + [quote] + ";"
  {
    var stmt := Statement(name, quote, [c]);
    var rep := ImagesPrefix + [c];
    assert CharFree([c], quote);
    assert !StartsWith([c], AssetsPrefix);
    AsWrittenStatement(name, quote, [c], "");
    assert stmt + "" == stmt;
    assert RewriteStatements("", name, quote, AsWritten) == "";
    assert RewriteStatements(stmt, name, quote, AsWritten) == ReplaceAll(stmt, [c], rep);
    assert stmt == b + [c] + r + [c] + [quote] + ";";
    ReplaceTwice(b, c, r, quote, rep);
  }

  /** The corrected rewrite prefixes only the quoted value, so it differs from the result as written. */
  lemma CorrectedInsertsOnce(name: string, quote: char, b: string, c: char, r: string)
    requires Opening(name, quote) == b + [c] + r
    requires CharFree(b, c) && CharFree(r, c) && c != quote && c != ';'
    ensures RewriteStatements(Statement(name, quote, [c]), name, quote, Corrected)
      == Opening(name, quote) + ImagesPrefix + [c] + [quote] + ";"
    ensures RewriteStatements(Statement(name, quote, [c]), name, quote, AsWritten)
      != RewriteStatements(Statement(name, quote, [c]), name, quote, Corrected)
  {
    var stmt := Statement(name, quote, [c]);
    assert CharFree([c], quote);
    CorrectedStatement(name, quote, [c], "");
    assert stmt + "" == stmt;
    AsWrittenInsertsTwice(name, quote, b, c, r);
    var w := RewriteStatements(stmt, name, quote, AsWritten);
    var k := RewriteStatements(stmt, name, quote, Corrected);
    assert |w| == |k| + |ImagesPrefix|;
  }

  /** `const image1Url = '` is `const imag`, `e`, `1Url = '`: the value `e` shows the discrepancy. */
  lemma ImageOneOpening()
    ensures Opening("image1Url", '\'') == "const imag" + ['e'] + "1Url = '"
    ensures CharFree("const imag", 'e') && CharFree("1Url = '", 'e')
  {
  }

  // ---------------------------------------------------------------------
  // The configuration embedded in the page

  /** `const storyConfig = ` and the opening brace of the object. */
  const ConfigOpening: string := "const storyConfig = {"

  /** Where `{.*?};` closes: the first `};` reached without crossing a line break. */
  function ClosingBrace(t: string): (m: Option<nat>)
    ensures m.Some? ==> m.value + 2 <= |t|
    decreases |t|
  {
    if |t| >= 2 && t[0] == '}' && t[1] == ';' then Some(0)
    else if |t| == 0 || t[0] == '\n' then None
    else
      match ClosingBrace(t[1..])
      case None => None
      case Some(m) => Some(m + 1)
  }

  /** The replacement of one embedded configuration `group` (the braces included). */
  function ConfigReplacement(group: string, parse: string -> Option<Config>, dump: Config -> string,
                             repairPng: bool): string
  {
    match parse(group)
    case None => "const storyConfig = " + group + ";"
    case Some(c) =>
      match RewriteConfig(c, repairPng)
      case Failure(_) => "const storyConfig = " + group + ";"
      case Success(d) => "const storyConfig = " + dump(d) + ";"
  }

  /** No position of `s` starts the configuration's opening; `OpeningFreeNotContains` relates it to `Contains`. */
  predicate OpeningFree(s: string)
    decreases |s|
  {
    |s| == 0 || (!StartsWith(s, ConfigOpening) && OpeningFree(s[1..]))
  }

  /** Being free of the opening at every position is not containing it. */
  lemma {:induction false} OpeningFreeNotContains(s: string)
    ensures OpeningFree(s) <==> !Contains(s, ConfigOpening)
    decreases |s|
  {
    if |s| > 0 {
      OpeningFreeNotContains(s[1..]);
      NotContainsTail(s, ConfigOpening);
      if Contains(s, ConfigOpening) {
        var j :| 0 <= j <= |s| && OccursAt(s, ConfigOpening, j);
        if j > 0 {
          assert s[1..][j - 1..j - 1 + |ConfigOpening|] == s[j..j + |ConfigOpening|];
          assert OccursAt(s[1..], ConfigOpening, j - 1);
        }
      }
    }
  }

  /**
   `re.sub(r'(const storyConfig = )({.*?});', ...)` over the page; a page
   without the configuration's opening is left as it is.
   */
  function RewriteEmbedded(s: string, parse: string -> Option<Config>, dump: Config -> string,
                           repairPng: bool): (r: string)
    ensures OpeningFree(s) ==> r == s
    decreases |s|
  {
    if |s| == 0 then ""
    else if StartsWith(s, ConfigOpening) && ClosingBrace(s[|ConfigOpening|..]).Some? then
      var m := ClosingBrace(s[|ConfigOpening|..]).value;
      var group := s[|ConfigOpening| - 1..|ConfigOpening| + m + 1];
      ConfigReplacement(group, parse, dump, repairPng)
        + RewriteEmbedded(s[|ConfigOpening| + m + 2..], parse, dump, repairPng)
    else
      assert s == [s[0]] + s[1..];
      [s[0]] + RewriteEmbedded(s[1..], parse, dump, repairPng)
  }

  /** The object text `{` + `x` + `}` closes at its own brace when `x` holds no `};` and no line break. */
  lemma {:induction false} ClosingBraceAfter(x: string, rest: string)
    requires !Contains(x, "};") && forall i | 0 <= i < |x| :: x[i] != '\n'
    ensures ClosingBrace(x + "};" + rest) == Some(|x|)
    decreases |x|
  {
    var t := x + "};" + rest;
    if |x| == 0 {
      assert t[0] == '}' && t[1] == ';';
    } else {
      NotContainsTail(x, "};");
      ClosingBraceAfter(x[1..], rest);
      assert t[1..] == x[1..] + "};" + rest;
      assert !(|t| >= 2 && t[0] == '}' && t[1] == ';') by {
        if |x| >= 2 {
          assert x[..2] == t[..2];
        } else {
          assert t[1] == '}';
        }
      }
    }
  }

  /** An embedded configuration at the front, and where the scan goes on after it. */
  lemma EmbeddedAtFront(x: string, rest: string, parse: string -> Option<Config>, dump: Config -> string,
                        repairPng: bool)
    requires !Contains(x, "};") && forall i | 0 <= i < |x| :: x[i] != '\n'
    ensures RewriteEmbedded(ConfigOpening + x + "};" + rest, parse, dump, repairPng)
      == ConfigReplacement("{" + x + "}", parse, dump, repairPng) + RewriteEmbedded(rest, parse, dump, repairPng)
  {
    var s := ConfigOpening + x + "};" + rest;
    var n := |ConfigOpening|;
    assert s[..n] == ConfigOpening;
    assert s[n..] == x + "};" + rest;
    ClosingBraceAfter(x, rest);
    assert s[n - 1..n + |x| + 1] == "{" + x + "}";
    assert s[n + |x| + 2..] == rest;
  }

  /** An embedded configuration that does not parse is kept as it is. */
  lemma UnparseableKept(x: string, rest: string, parse: string -> Option<Config>, dump: Config -> string,
                        repairPng: bool)
    requires !Contains(x, "};") && forall i | 0 <= i < |x| :: x[i] != '\n'
    requires parse("{" + x + "}").None?
    ensures RewriteEmbedded(ConfigOpening + x + "};" + rest, parse, dump, repairPng)
      == ConfigOpening + x + "};" + RewriteEmbedded(rest, parse, dump, repairPng)
  {
    EmbeddedAtFront(x, rest, parse, dump, repairPng);
    assert "const storyConfig = " + ("{" + x + "}") + ";" == ConfigOpening + x + "};";
  }

  /** An embedded configuration that parses is written back rewritten, unless the rewrite raises. */
  lemma ParsedRewritten(x: string, rest: string, parse: string -> Option<Config>, dump: Config -> string,
                        repairPng: bool)
    requires !Contains(x, "};") && forall i | 0 <= i < |x| :: x[i] != '\n'
    requires parse("{" + x + "}").Some?
    ensures var c := parse("{" + x + "}").value;
      var r := RewriteEmbedded(ConfigOpening + x + "};" + rest, parse, dump, repairPng);
      && (RewriteConfig(c, repairPng).Success? ==>
            r == "const storyConfig = " + dump(RewriteConfig(c, repairPng).value) + ";"
                 + RewriteEmbedded(rest, parse, dump, repairPng))
      && (RewriteConfig(c, repairPng).Failure? ==>
            r == ConfigOpening + x + "};" + RewriteEmbedded(rest, parse, dump, repairPng))
  {
    var g := "{" + x + "}";
    EmbeddedAtFront(x, rest, parse, dump, repairPng);
    ParsedReplacement(g, parse, dump, repairPng);
    GroupStatement(x);
  }

  lemma GroupStatement(x: string)
    ensures "const storyConfig = " + ("{" + x + "}") + ";" == ConfigOpening + x + "};"
  {
  }

  lemma ParsedReplacement(group: string, parse: string -> Option<Config>, dump: Config -> string, repairPng: bool)
    requires parse(group).Some?
    ensures var d := RewriteConfig(parse(group).value, repairPng);
      && (d.Success? ==> ConfigReplacement(group, parse, dump, repairPng) == "const storyConfig = " + dump(d.value) + ";")
      && (d.Failure? ==> ConfigReplacement(group, parse, dump, repairPng) == "const storyConfig = " + group + ";")
  {
  }

  /** A recognised embedded configuration is the statement text followed by the rest of the page. */
  lemma EmbeddedSplit(s: string)
    requires StartsWith(s, ConfigOpening) && ClosingBrace(s[|ConfigOpening|..]).Some?
    ensures var n := |ConfigOpening|;
      var m := ClosingBrace(s[n..]).value;
      s == "const storyConfig = " + s[n - 1..n + m + 1] + ";" + s[n + m + 2..]
  {
    var n := |ConfigOpening|;
    var m := ClosingBrace(s[n..]).value;
    ClosingBraceCloses(s[n..]);
    assert s[n + m + 1] == s[n..][m + 1];
    assert s[..n - 1] == "const storyConfig = " by { assert s[..n - 1] == s[..n][..n - 1]; }
    assert s == s[..n - 1] + s[n - 1..n + m + 1] + [s[n + m + 1]] + s[n + m + 2..];
  }

  /** A reader for which no text is valid JSON. */
  function Unparseable(x: string): Option<Config> {
    None
  }

  /** Where the scan of `RewriteEmbedded` resumes after the front of `s`: past a recognised statement, or one character on. */
  function EmbeddedNext(s: string): (k: nat)
    requires |s| > 0
    ensures 0 < k <= |s|
  {
    if StartsWith(s, ConfigOpening) && ClosingBrace(s[|ConfigOpening|..]).Some? then
      |ConfigOpening| + ClosingBrace(s[|ConfigOpening|..]).value + 2
    else 1
  }

  /** When no text parses, the page is left as it is. */
  lemma {:induction false} NothingParses(s: string, dump: Config -> string, repairPng: bool)
    ensures RewriteEmbedded(s, Unparseable, dump, repairPng) == s
    decreases |s|
  {
    if |s| > 0 {
      NothingParses(s[EmbeddedNext(s)..], dump, repairPng);
      NothingStep(s, dump, repairPng);
    }
  }

  lemma NothingStep(s: string, dump: Config -> string, repairPng: bool)
    requires |s| > 0
    requires var k := EmbeddedNext(s); RewriteEmbedded(s[k..], Unparseable, dump, repairPng) == s[k..]
    ensures RewriteEmbedded(s, Unparseable, dump, repairPng) == s
  {
    if StartsWith(s, ConfigOpening) && ClosingBrace(s[|ConfigOpening|..]).Some? {
      UnparsedStep(s, dump, repairPng);
    } else {
      SkipStep(s, dump, repairPng);
    }
  }

  lemma UnparsedStep(s: string, dump: Config -> string, repairPng: bool)
    requires StartsWith(s, ConfigOpening) && ClosingBrace(s[|ConfigOpening|..]).Some?
    requires var m := ClosingBrace(s[|ConfigOpening|..]).value;
      var rest := s[|ConfigOpening| + m + 2..];
      RewriteEmbedded(rest, Unparseable, dump, repairPng) == rest
    ensures RewriteEmbedded(s, Unparseable, dump, repairPng) == s
  {
    var n := |ConfigOpening|;
    var m := ClosingBrace(s[n..]).value;
    UnparsedUnfold(s, n, m, dump, repairPng);
    EmbeddedSplit(s);
  }

  /** With no text parsing, a recognised statement at the front is written back as it was. */
  lemma UnparsedUnfold(s: string, n: nat, m: nat, dump: Config -> string, repairPng: bool)
    requires n == |ConfigOpening| && StartsWith(s, ConfigOpening) && ClosingBrace(s[n..]) == Some(m)
    ensures n + m + 2 <= |s|
    ensures RewriteEmbedded(s, Unparseable, dump, repairPng)
      == "const storyConfig = " + s[n - 1..n + m + 1] + ";" + RewriteEmbedded(s[n + m + 2..], Unparseable, dump, repairPng)
  {
    var group := s[n - 1..n + m + 1];
    assert Unparseable(group).None?;
    assert ConfigReplacement(group, Unparseable, dump, repairPng) == "const storyConfig = " + group + ";";
  }

  lemma SkipStep(s: string, dump: Config -> string, repairPng: bool)
    requires |s| > 0 && !(StartsWith(s, ConfigOpening) && ClosingBrace(s[|ConfigOpening|..]).Some?)
    requires RewriteEmbedded(s[1..], Unparseable, dump, repairPng) == s[1..]
    ensures RewriteEmbedded(s, Unparseable, dump, repairPng) == s
  {
    assert s == [s[0]] + s[1..];
  }

  lemma {:induction false} ClosingBraceCloses(t: string)
    requires ClosingBrace(t).Some?
    ensures var m := ClosingBrace(t).value; t[m] == '}' && t[m + 1] == ';'
    decreases |t|
  {
    if !(|t| >= 2 && t[0] == '}' && t[1] == ';') {
      ClosingBraceCloses(t[1..]);
    }
  }

  // ---------------------------------------------------------------------
  // The protection script

  /**
   The script goes before every `</head>` when there is one, otherwise
   before every `</body>`: between the same pieces the closing tag
   separated. A page with neither tag is unchanged.
   */
  function InsertProtection(content: string, script: string): (r: string)
    ensures var tag := if Contains(content, "</head>") then "</head>" else "</body>";
      var parts := Split(content, tag);
      && Join(parts, tag) == content
      && r == Join(parts, script + tag)
      && forall k | 0 <= k < |parts| :: !Contains(parts[k], tag)
    ensures !Contains(content, "</head>") && !Contains(content, "</body>") ==> r == content
  {
    var tag := if Contains(content, "</head>") then "</head>" else "</body>";
    ReplaceAllPieces(content, tag, script + tag);
    if !Contains(content, "</head>") && !Contains(content, "</body>") then
      ReplaceAllAbsent(content, "</body>", script + "</body>");
      ReplaceAll(content, "</body>", script + "</body>")
    else if Contains(content, "</head>") then ReplaceAll(content, "</head>", script + "</head>")
    else ReplaceAll(content, "</body>", script + "</body>")
  }
}
