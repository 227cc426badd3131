/**
 The V13 simple protector: every HTML page of the story folder gets its
 image urls moved under `assets/images/`, the protection script before
 its closing head (or body) tag, and a basic minification; the story
 configuration is copied with its image urls moved the same way, and the
 PNG images are copied to `assets/images/`.
 */
module SimpleObfuscate {
  import opened Wrappers
  import opened Strings
  import opened AssetPaths
  import opened Minify

  /**
   `update_image_paths`: both single-quoted statements, then the embedded
   configuration. `AsWritten` is the program; `Corrected` moves only the
   quoted value of each statement. A page with neither image statement nor
   embedded configuration keeps its paths.
   */
  function UpdateImagePaths(content: string, parse: string -> Option<Config>, dump: Config -> string, fix: Fix): (r: string)
    ensures && !Contains(content, Opening("image1Url", '\''))
            && !Contains(content, Opening("image2Url", '\''))
            && !Contains(content, ConfigOpening)
            ==> r == content
  {
    var c1 := RewriteStatements(content, "image1Url", '\'', fix);
    var c2 := RewriteStatements(c1, "image2Url", '\'', fix);
    OpeningFreeNotContains(c2);
    RewriteEmbedded(c2, parse, dump, true)
  }

  /**
   `process_file`: image paths, protection script, then the HTML minification.
   Every processed page is minified: single blanks, no blank between tags,
   nothing to trim; a page without the script's anchors or paths to move is
   only minified.
   */
  function ProcessFile(content: string, parse: string -> Option<Config>, dump: Config -> string,
                       script: string, fix: Fix): (r: string)
    ensures SingleSpaced(r) && OnlyBlanks(r) && NoBlankBetweenTags(r) && Trimmed(r)
    ensures && !Contains(content, Opening("image1Url", '\''))
            && !Contains(content, Opening("image2Url", '\''))
            && !Contains(content, ConfigOpening)
            && !Contains(content, "</head>") && !Contains(content, "</body>")
            ==> r == MinifyHtml(content)
  {
    MinifyHtml(InsertProtection(UpdateImagePaths(content, parse, dump, fix), script))
  }

  /** Text without a `2` or a `{` passes the image2Url rewrite and the embedded configuration unchanged. */
  lemma AfterFirstStatement(x: string, parse: string -> Option<Config>, dump: Config -> string, fix: Fix)
    requires Plain(x)
    ensures RewriteEmbedded(RewriteStatements(x, "image2Url", '\'', fix), parse, dump, true) == x
  {
    var two := Opening("image2Url", '\'');
    assert two[11] == '2';
    CharFreeAbsent(x, two, 11);
    assert ConfigOpening[20] == '{';
    CharFreeAbsent(x, ConfigOpening, 20);
  }

  /** Neither a `2` nor a `{`: nothing the image2Url rewrite or the embedded configuration would match. */
  predicate Plain(x: string) {
    CharFree(x, '2') && CharFree(x, '{')
  }

  lemma PlainAppend(a: string, b: string)
    requires Plain(a) && Plain(b)
    ensures Plain(a + b)
  {
    CharFreeConcat(a, b, '2');
    CharFreeConcat(a, b, '{');
  }

  lemma PlainAsWrittenPage()
    ensures Plain("const imag" + ImagesPrefix + "e" + "1Url = '" + ImagesPrefix + "e" + "';")
  {
    assert Plain("const imag") && Plain(ImagesPrefix) && Plain("e") && Plain("1Url = '") && Plain("';");
    PlainAppend("const imag", ImagesPrefix);
    PlainAppend("const imag" + ImagesPrefix, "e");
    PlainAppend("const imag" + ImagesPrefix + "e", "1Url = '");
    PlainAppend("const imag" + ImagesPrefix + "e" + "1Url = '", ImagesPrefix);
    PlainAppend("const imag" + ImagesPrefix + "e" + "1Url = '" + ImagesPrefix, "e");
    PlainAppend("const imag" + ImagesPrefix + "e" + "1Url = '" + ImagesPrefix + "e", "';");
  }

  lemma PlainCorrectedPage()
    ensures Plain(Statement("image1Url", '\'', ImagesPrefix + "e"))
  {
    var o := Opening("image1Url", '\'');
    assert Plain(o) && Plain(ImagesPrefix) && Plain("e") && Plain("';");
    PlainAppend(o, ImagesPrefix);
    PlainAppend(o + ImagesPrefix, "e");
    PlainAppend(o + ImagesPrefix + "e", "';");
    assert Statement("image1Url", '\'', ImagesPrefix + "e") == o + ImagesPrefix + "e" + "';";
  }

  /** The first rewrite of `const image1Url = 'e';` as written. */
  lemma FirstRewriteOneLetter()
    ensures RewriteStatements("const image1Url = 'e';", "image1Url", '\'', AsWritten)
      == "const imag" + ImagesPrefix + "e" + "1Url = '" + ImagesPrefix + "e" + "';"
  {
    OneLetterPage();
    ImageOneOpening();
    AsWrittenInsertsTwice("image1Url", '\'', "const imag", 'e', "1Url = '");
    OneLetterTail();
  }

  lemma OneLetterPage()
    ensures "const image1Url = 'e';" == Statement("image1Url", '\'', ['e'])
  {
  }

  lemma OneLetterTail()
    ensures "const imag" + (ImagesPrefix + ['e']) + "1Url = '" + (ImagesPrefix + ['e']) + ['\''] + ";"
      == "const imag" + ImagesPrefix + "e" + "1Url = '" + ImagesPrefix + "e" + "';"
  {
  }

  /** The first rewrite of `const image1Url = 'e';` corrected. */
  lemma FirstRewriteOneLetterCorrected()
    ensures RewriteStatements(Statement("image1Url", '\'', "e"), "image1Url", '\'', Corrected)
      == Statement("image1Url", '\'', ImagesPrefix + "e")
  {
    var page := Statement("image1Url", '\'', "e");
    assert CharFree("e", '\'');
    CorrectedStatement("image1Url", '\'', "e", "");
    assert page + "" == page;
    assert FixUrl("e", false) == ImagesPrefix + "e";
  }

  /** As written, `const image1Url = 'e';` gets the prefix inside the variable name too. */
  lemma UpdateImagePathsOneLetter(parse: string -> Option<Config>, dump: Config -> string)
    ensures UpdateImagePaths("const image1Url = 'e';", parse, dump, AsWritten)
      == "const imag" + ImagesPrefix + "e" + "1Url = '" + ImagesPrefix + "e" + "';"
  {
    FirstRewriteOneLetter();
    PlainAsWrittenPage();
    AfterFirstStatement("const imag" + ImagesPrefix + "e" + "1Url = '" + ImagesPrefix + "e" + "';", parse, dump, AsWritten);
  }

  /** Corrected, only the quoted value of `const image1Url = 'e';` moves. */
  lemma UpdateImagePathsOneLetterCorrected(parse: string -> Option<Config>, dump: Config -> string)
    ensures UpdateImagePaths(Statement("image1Url", '\'', "e"), parse, dump, Corrected)
      == Statement("image1Url", '\'', ImagesPrefix + "e")
  {
    FirstRewriteOneLetterCorrected();
    PlainCorrectedPage();
    AfterFirstStatement(Statement("image1Url", '\'', ImagesPrefix + "e"), parse, dump, Corrected);
  }

  const ConfigName: string := "story-config.json"

  /** The output folder: its own files, and the files of its `assets/images/` folder. */
  datatype Dist = Dist(files: map<string, string>, images: map<string, string>)

  /** Each HTML page of the folder, processed, under its own name. */
  function ProcessPages(files: map<string, string>, parse: string -> Option<Config>, dump: Config -> string,
                        script: string, fix: Fix): (pages: map<string, string>)
    ensures forall k :: k in pages <==> k in files && EndsWith(k, ".html")
    ensures forall k :: k in pages ==> pages[k] == ProcessFile(files[k], parse, dump, script, fix)
  {
    map k | k in files && EndsWith(k, ".html") :: ProcessFile(files[k], parse, dump, script, fix)
  }

  /** Each PNG image of the folder, unchanged, under its own name. */
  function PngFiles(files: map<string, string>): (images: map<string, string>)
    ensures forall k :: k in images <==> k in files && EndsWith(k, ".png")
    ensures forall k :: k in images ==> images[k] == files[k]
  {
    map k | k in files && EndsWith(k, ".png") :: files[k]
  }

  /**
   How a run ends: the finished `dist` folder, or the reason it stopped
   together with what `dist` holds at that point.
   */
  datatype Run = Finished(dist: Dist) | Stopped(reason: string, left: Dist)

  /** The configuration the source folder holds: None without one, Some(None) when it is not a JSON object. */
  function SourceConfig(files: map<string, string>, parse: string -> Option<Config>): Option<Option<Config>> {
    if ConfigName in files then Some(parse(files[ConfigName])) else None
  }

  /**
   The `dist` folder, made afresh. It is emptied first; a missing source
   folder then stops the run with `dist` empty. Otherwise each source page
   is processed under its own name; then the folder's `story-config.json`,
   when there is one, is read and rewritten, and a text that is not a JSON
   object, or an image field that is not a string, stops the run with only
   the pages written. Otherwise the rewritten configuration is written and
   each image copied under `assets/images/`. This holds for the pages as
   written and as corrected.
   */
  function Protect(source: Option<map<string, string>>,
                   parse: string -> Option<Config>, dump: Config -> string, dumpIndented: Config -> string,
                   script: string, fix: Fix): (r: Run)
    ensures source.None? ==> r == Stopped("Source directory not found", Dist(map[], map[]))
    ensures r.Stopped? <==> (
      || source.None?
      || (&& ConfigName in source.value
          && (parse(source.value[ConfigName]).None? || RewriteConfig(parse(source.value[ConfigName]).value, true).Failure?)))
    ensures r.Stopped? && source.Some? ==>
      && (forall k :: k in r.left.files <==> k in source.value && EndsWith(k, ".html"))
      && (forall k :: k in r.left.files ==> r.left.files[k] == ProcessFile(source.value[k], parse, dump, script, fix))
      && r.left.images == map[]
    ensures r.Finished? ==>
      var files := source.value;
      && (forall k :: k in r.dist.files <==> (k in files && EndsWith(k, ".html")) || (ConfigName in files && k == ConfigName))
      && (forall k :: k in files && EndsWith(k, ".html") ==>
            r.dist.files[k] == ProcessFile(files[k], parse, dump, script, fix))
      && (ConfigName in files ==>
            r.dist.files[ConfigName] == dumpIndented(RewriteConfig(parse(files[ConfigName]).value, true).value))
      && (forall k :: k in r.dist.images <==> k in files && EndsWith(k, ".png"))
      && (forall k :: k in r.dist.images ==> r.dist.images[k] == files[k])
  {
    ConfigIsNotHtml();
    match source
    case None => Stopped("Source directory not found", Dist(map[], map[]))
    case Some(files) =>
      var pages := ProcessPages(files, parse, dump, script, fix);
      var images := PngFiles(files);
      match SourceConfig(files, parse)
      case None => Finished(Dist(pages, images))
      case Some(None) => Stopped("story-config.json is not a JSON object", Dist(pages, map[]))
      case Some(Some(c)) =>
        match RewriteConfig(c, true)
        case Failure(e) => Stopped(e, Dist(pages, map[]))
        case Success(d) => Finished(Dist(pages[ConfigName := dumpIndented(d)], images))
  }

  lemma ConfigIsNotHtml()
    ensures !EndsWith(ConfigName, ".html")
  {
    assert ConfigName[|ConfigName| - 5..][1] == 'j';
  }
}
