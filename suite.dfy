/** The whole suite of tests/dom-check.test.js, run once over one set of
    loaded artifacts, in source order. The documents, the stylesheet text
    and the image decoder are inputs; the suite's outcome is one verdict per
    test. */
module Suite {
  import opened Artifacts
  import opened Structure
  import opened Images
  import opened Css

  /** The loaded artifacts: the documents in load order, the positions of the
      index and contact documents among them, the stylesheet text and the
      image decoder. */
  datatype Run = Run(docs: seq<Document>, index: nat, contact: nat, css: string, decoder: Decoder)

  datatype TestOutcome = TestOutcome(name: string, passed: bool)

  /** A rule on the index document; a missing index document fails it, as
      reading from `undefined` throws. */
  predicate IndexHas(run: Run, rule: Document -> bool) {
    run.index < |run.docs| && rule(run.docs[run.index])
  }

  predicate AllPassed(outcomes: seq<TestOutcome>) {
    forall k | 0 <= k < |outcomes| :: outcomes[k].passed
  }

  lemma AllPassedAppend(a: seq<TestOutcome>, b: seq<TestOutcome>)
    ensures AllPassed(a + b) <==> AllPassed(a) && AllPassed(b)
  {
    if AllPassed(a) && AllPassed(b) {
      forall k | 0 <= k < |a + b| ensures (a + b)[k].passed {
        if k >= |a| {
          assert (a + b)[k] == b[k - |a|];
        }
      }
    }
    if AllPassed(a + b) {
      forall k | 0 <= k < |a| ensures a[k].passed {
        assert (a + b)[k] == a[k];
      }
      forall k | 0 <= k < |b| ensures b[k].passed {
        assert (a + b)[|a| + k] == b[k];
      }
    }
  }

  // "general HTML structure"

  function GeneralOutcomes(run: Run): seq<TestOutcome> {
    var docs := run.docs;
    [ TestOutcome("head", forall i | 0 <= i < |docs| :: HeadConforms(docs[i], i == run.index)),
      TestOutcome("single-h1", forall i | 0 <= i < |docs| :: SingleHeading1(docs[i])),
      TestOutcome("header-nav", forall i | 0 <= i < |docs| :: HeaderNavigation(docs[i])) ]
  }

  method RunGeneral(run: Run) returns (outcomes: seq<TestOutcome>)
    ensures outcomes == GeneralOutcomes(run)
  {
    var docs := run.docs;
    var headOk := HeadTest(docs, run.index);
    outcomes := [
      TestOutcome("head", headOk),
      TestOutcome("single-h1", forall i | 0 <= i < |docs| :: SingleHeading1(docs[i])),
      TestOutcome("header-nav", forall i | 0 <= i < |docs| :: HeaderNavigation(docs[i])) ];
  }

  /** Every document has the `<head>` contents, one `<h1>` and the header navigation. */
  predicate DocumentsConform(run: Run) {
    forall i | 0 <= i < |run.docs| ::
      HeadConforms(run.docs[i], i == run.index) && SingleHeading1(run.docs[i])
      && HeaderNavigation(run.docs[i])
  }

  lemma GeneralPassesIff(run: Run)
    ensures AllPassed(GeneralOutcomes(run)) <==> DocumentsConform(run)
  {
    var o := GeneralOutcomes(run);
    if AllPassed(o) {
      assert o[0].passed && o[1].passed && o[2].passed;
    }
  }

  // "tests for main index.html"

  function IndexOutcomes(run: Run): seq<TestOutcome> {
    [ TestOutcome("index-layout", IndexHas(run, IndexLayout)),
      TestOutcome("article-contents", IndexHas(run, ArticleContents)) ]
  }

  // "image tests"

  /** The image tests. The three after the path test see only the records
      the path test left behind. */
  function ImageOutcomes(run: Run): seq<TestOutcome> {
    var imgs := AllImages(run.docs);
    var images := Records(imgs, run.decoder);
    [ TestOutcome("image-paths", forall k | 0 <= k < |imgs| :: PathClean(imgs[k], run.decoder)),
      TestOutcome("image-widths", WidthsBounded(images)),
      TestOutcome("image-directory", InImageDirectory(images)),
      TestOutcome("image-dimensions", DimensionsMatch(images)),
      TestOutcome("picture-sources", IndexHas(run, PictureSources)),
      TestOutcome("contact-svg", run.contact < |run.docs| && LoadsSvgImage(run.docs[run.contact])) ]
  }

  /** The path test builds the records the next three tests read. */
  method RunImageTests(run: Run) returns (outcomes: seq<TestOutcome>)
    ensures outcomes == ImageOutcomes(run)
  {
    var imgs := CollectImages(run.docs);
    var images, pathsOk := BuildImageRecords(imgs, run.decoder);
    outcomes := [
      TestOutcome("image-paths", pathsOk),
      TestOutcome("image-widths", WidthsBounded(images)),
      TestOutcome("image-directory", InImageDirectory(images)),
      TestOutcome("image-dimensions", DimensionsMatch(images)),
      TestOutcome("picture-sources", IndexHas(run, PictureSources)),
      TestOutcome("contact-svg", run.contact < |run.docs| && LoadsSvgImage(run.docs[run.contact])) ];
  }

  /** Every `<img>` of every document conforms on its own. */
  predicate ImagesConform(run: Run) {
    forall d, img | 0 <= d < |run.docs| && img in run.docs[d].images :: ImageConforms(img, run.decoder)
  }

  /** The image tests all pass exactly when every image conforms on its own
      and the picture and contact-page rules hold; the width, directory and
      size tests see only the records the path test keeps, yet together they
      vouch for every `<img>` of every document. */
  lemma ImageTestsPassIffEveryImage(run: Run)
    ensures AllPassed(ImageOutcomes(run)) <==>
      ImagesConform(run) && IndexHas(run, PictureSources)
      && run.contact < |run.docs| && LoadsSvgImage(run.docs[run.contact])
  {
    var imgs := AllImages(run.docs);
    ImageVerdicts(run);
    ImageTestsPassIff(imgs, run.decoder);
    EveryGatheredImage(run.docs, run.decoder);
  }

  /** The image block's verdicts, one by one. */
  lemma ImageVerdicts(run: Run)
    ensures (var imgs := AllImages(run.docs);
             var images := Records(imgs, run.decoder);
             AllPassed(ImageOutcomes(run)) <==>
               (forall k | 0 <= k < |imgs| :: PathClean(imgs[k], run.decoder))
               && WidthsBounded(images) && InImageDirectory(images) && DimensionsMatch(images)
               && IndexHas(run, PictureSources)
               && run.contact < |run.docs| && LoadsSvgImage(run.docs[run.contact]))
  {
    var o := ImageOutcomes(run);
    if AllPassed(o) {
      assert o[0].passed && o[1].passed && o[2].passed && o[3].passed && o[4].passed && o[5].passed;
    }
  }

  /** When the path test fails first at image `f`, the width, directory and
      size tests look at no image after it. */
  lemma LaterImageTestsStopAtFailure(run: Run, f: nat)
    requires f < |AllImages(run.docs)|
    requires !PathClean(AllImages(run.docs)[f], run.decoder)
    requires forall k | 0 <= k < f :: PathClean(AllImages(run.docs)[k], run.decoder)
    ensures |Records(AllImages(run.docs), run.decoder)| <= f + 1
  {
    RecordsStopAtFirstFailure(AllImages(run.docs), run.decoder, f);
  }

  // "CSS tests"

  function CssOutcomes(run: Run): seq<TestOutcome> {
    [ TestOutcome("global-rules", GlobalRules(run.css)),
      TestOutcome("body-typography", AllDeclarations(run.css, BodySpaced, Typography)),
      TestOutcome("anchors", AnchorRules(run.css)),
      TestOutcome("buttons", ButtonRules(run.css)),
      TestOutcome("hero-section", IndexHas(run, HeroContents)),
      TestOutcome("hero-clamp", HeroHeadingClamped(run.css)),
      TestOutcome("cards", IndexHas(run, FourCards)) ]
  }

  /** The typography test uses the `fail` flag. */
  method RunCssTests(run: Run) returns (outcomes: seq<TestOutcome>)
    ensures outcomes == CssOutcomes(run)
  {
    var fail := CheckDeclarations(run.css, BodySpaced, Typography);
    outcomes := [
      TestOutcome("global-rules", GlobalRules(run.css)),
      TestOutcome("body-typography", !fail),
      TestOutcome("anchors", AnchorRules(run.css)),
      TestOutcome("buttons", ButtonRules(run.css)),
      TestOutcome("hero-section", IndexHas(run, HeroContents)),
      TestOutcome("hero-clamp", HeroHeadingClamped(run.css)),
      TestOutcome("cards", IndexHas(run, FourCards)) ];
  }

  // "new tests"

  function NewOutcomes(run: Run): seq<TestOutcome> {
    [ TestOutcome("media-queries", TwoMediaQueries(run.css)),
      TestOutcome("body-flex", AllDeclarations(run.css, Body, FlexColumn)),
      TestOutcome("main-max-width", MainMaxWidth(run.css)),
      TestOutcome("two-panels", IndexHas(run, TwoPanels)),
      TestOutcome("one-left-per-panel", IndexHas(run, OneLeftPerPanel)) ]
  }

  /** The flex test uses the `fail` flag. */
  method RunNewTests(run: Run) returns (outcomes: seq<TestOutcome>)
    ensures outcomes == NewOutcomes(run)
  {
    var fail := CheckDeclarations(run.css, Body, FlexColumn);
    outcomes := [
      TestOutcome("media-queries", TwoMediaQueries(run.css)),
      TestOutcome("body-flex", !fail),
      TestOutcome("main-max-width", MainMaxWidth(run.css)),
      TestOutcome("two-panels", IndexHas(run, TwoPanels)),
      TestOutcome("one-left-per-panel", IndexHas(run, OneLeftPerPanel)) ];
  }

  // The whole suite

  /** The verdict of every test, in source order. */
  function Outcomes(run: Run): seq<TestOutcome> {
    GeneralOutcomes(run) + IndexOutcomes(run) + ImageOutcomes(run) + CssOutcomes(run) + NewOutcomes(run)
  }

  /** Runs every test in source order. */
  method RunSuite(run: Run) returns (outcomes: seq<TestOutcome>)
    ensures outcomes == Outcomes(run)
  {
    var general := RunGeneral(run);
    var imageTests := RunImageTests(run);
    var cssTests := RunCssTests(run);
    var newTests := RunNewTests(run);
    outcomes := general + IndexOutcomes(run) + imageTests + cssTests + newTests;
  }

  /** What the suite asks of the index document. */
  predicate IndexConforms(home: Document) {
    IndexLayout(home) && ArticleContents(home) && PictureSources(home) && HeroContents(home)
    && FourCards(home) && TwoPanels(home) && OneLeftPerPanel(home)
  }

  /** What the suite asks of the stylesheet. */
  predicate StylesheetConforms(css: string) {
    GlobalRules(css) && AllDeclarations(css, BodySpaced, Typography)
    && AnchorRules(css) && ButtonRules(css) && HeroHeadingClamped(css)
    && TwoMediaQueries(css) && AllDeclarations(css, Body, FlexColumn) && MainMaxWidth(css)
  }

  /** What the suite asks of the artifacts, artifact by artifact. */
  predicate Conforms(run: Run) {
    DocumentsConform(run)
    && run.index < |run.docs| && IndexConforms(run.docs[run.index])
    && run.contact < |run.docs| && LoadsSvgImage(run.docs[run.contact])
    && ImagesConform(run)
    && StylesheetConforms(run.css)
  }

  lemma IndexPassesIff(run: Run)
    ensures AllPassed(IndexOutcomes(run)) <==>
      (IndexHas(run, IndexLayout) && IndexHas(run, ArticleContents))
  {
    var o := IndexOutcomes(run);
    if AllPassed(o) {
      assert o[0].passed && o[1].passed;
    }
  }

  lemma CssPassesIff(run: Run)
    ensures AllPassed(CssOutcomes(run)) <==>
      (GlobalRules(run.css) && AllDeclarations(run.css, BodySpaced, Typography)
       && AnchorRules(run.css) && ButtonRules(run.css) && IndexHas(run, HeroContents)
       && HeroHeadingClamped(run.css) && IndexHas(run, FourCards))
  {
    var o := CssOutcomes(run);
    PassedAt(o);
  }

  /** Seven verdicts all passed exactly when each of them did. */
  lemma PassedAt(o: seq<TestOutcome>)
    requires |o| == 7
    ensures AllPassed(o) <==>
      (o[0].passed && o[1].passed && o[2].passed && o[3].passed && o[4].passed && o[5].passed && o[6].passed)
  {
  }

  lemma NewPassesIff(run: Run)
    ensures AllPassed(NewOutcomes(run)) <==>
      (TwoMediaQueries(run.css) && AllDeclarations(run.css, Body, FlexColumn)
       && MainMaxWidth(run.css) && IndexHas(run, TwoPanels) && IndexHas(run, OneLeftPerPanel))
  {
    var o := NewOutcomes(run);
    if AllPassed(o) {
      assert o[0].passed && o[1].passed && o[2].passed && o[3].passed && o[4].passed;
    }
  }

  /** Every test passes exactly when every artifact conforms on its own. */
  lemma SuitePassesIff(run: Run)
    ensures AllPassed(Outcomes(run)) <==> Conforms(run)
  {
    var g, x, m, c, n := GeneralOutcomes(run), IndexOutcomes(run), ImageOutcomes(run),
                         CssOutcomes(run), NewOutcomes(run);
    AllPassedAppend(g, x);
    AllPassedAppend(g + x, m);
    AllPassedAppend(g + x + m, c);
    AllPassedAppend(g + x + m + c, n);
    GeneralPassesIff(run);
    IndexPassesIff(run);
    ImageTestsPassIffEveryImage(run);
    CssPassesIff(run);
    NewPassesIff(run);
  }
}
