/** The document-structure tests of tests/dom-check.test.js: the `<head>`
    test with its positional stylesheet-order check, and the presence and
    cardinality rules, each stated over one document. */
module Structure {
  import opened Text
  import opened Artifacts

  /** `/normalize\..*css/`: `normalize.`, then anything but a line terminator, then `css`. */
  predicate NormalizeMatches(href: string) {
    exists p | 0 <= p <= |href| :: StartsAt(href, p, "normalize.") &&
      exists q | p + 10 <= q <= |href| :: NoLineTerminator(href, p + 10, q) && StartsAt(href, q, "css")
  }

  /** `/fonts.googleapis.com/` matches at `p`; each of its two unescaped
      dots matches one code unit other than a line terminator, so a
      character stored as a surrogate pair cannot stand in for a dot. */
  predicate FontsAt(href: string, p: int) {
    StartsAt(href, p, "fonts") && p + 5 < |href| && DotMatches(href[p + 5])
    && StartsAt(href, p + 6, "googleapis") && p + 16 < |href| && DotMatches(href[p + 16])
    && StartsAt(href, p + 17, "com")
  }

  predicate FontsMatches(href: string) {
    exists p | 0 <= p <= |href| :: FontsAt(href, p)
  }

  /** The main stylesheet's expected href: relative to the site root for the
      index document, one directory up for every other document. */
  function MainHref(isIndex: bool): string {
    if isIndex then "styles/main.css" else "../styles/main.css"
  }

  /** The stylesheet-order condition on one document's stylesheet hrefs:
      normalize first, the web font second, and the main stylesheet THIRD by
      position. Fewer than three links fail, as reading `.href` of a missing
      entry throws. */
  predicate StylesheetOrder(hrefs: seq<string>, isIndex: bool) {
    |hrefs| >= 3 && NormalizeMatches(hrefs[0]) && FontsMatches(hrefs[1])
    && hrefs[2] == MainHref(isIndex)
  }

  /** The stylesheet part of the `<head>` test for one document, step by
      step: each `expect` that fails, and each read of a missing link, ends
      the check with a failure; `mainFound` is set in the branch for the
      document's kind. */
  method CheckStylesheets(hrefs: seq<string>, isIndex: bool) returns (passed: bool)
    ensures passed <==> StylesheetOrder(hrefs, isIndex)
  {
    if |hrefs| < 1 || !NormalizeMatches(hrefs[0]) {
      return false;
    }
    if |hrefs| < 2 || !FontsMatches(hrefs[1]) {
      return false;
    }
    if |hrefs| < 3 {
      return false;
    }
    var mainFound := false;
    if isIndex {
      if hrefs[2] == "styles/main.css" {
        mainFound := true;
      }
    } else {
      if hrefs[2] == "../styles/main.css" {
        mainFound := true;
      }
    }
    passed := mainFound;
  }

  /** Everything the `<head>` test asks of one document. */
  predicate HeadConforms(doc: Document, isIndex: bool) {
    doc.hasTitle && doc.hasMetaDescription && doc.hasFavicon
    && StylesheetOrder(doc.stylesheets, isIndex)
  }

  /** The `<head>` test over all documents; the document at position `index`
      is the index page. */
  method HeadTest(docs: seq<Document>, index: nat) returns (passed: bool)
    ensures passed <==> forall i | 0 <= i < |docs| :: HeadConforms(docs[i], i == index)
  {
    passed := true;
    var i := 0;
    while i < |docs|
      invariant 0 <= i <= |docs|
      invariant passed <==> forall k | 0 <= k < i :: HeadConforms(docs[k], k == index)
    {
      var doc := docs[i];
      var ok := doc.hasTitle && doc.hasMetaDescription && doc.hasFavicon;
      if ok {
        ok := CheckStylesheets(doc.stylesheets, i == index);
      }
      passed := passed && ok;
      i := i + 1;
    }
  }

  /** Exactly one `<h1>`. */
  predicate SingleHeading1(doc: Document) {
    doc.h1Count == 1
  }

  /** A `<header>` whose `<nav>` child holds a `<ul>` child. */
  predicate HeaderNavigation(doc: Document) {
    doc.hasHeader && doc.hasHeaderNav && doc.hasHeaderNavList
  }

  /** The index page's landmarks: a `<picture>`, a `<main>`, at least two
      `<article>`s, an `<aside>` and a `<footer>`. */
  predicate IndexLayout(doc: Document) {
    doc.hasPicture && doc.hasMain && |doc.articles| >= 2 && doc.hasAside && doc.hasFooter
  }

  /** Each article has an `<h2>` and an `<a class="button">`. The test's `<p>`
      line compares a node list with null, which never fails, so no rule
      reads `hasParagraph`. */
  predicate ArticleContents(doc: Document) {
    forall a | a in doc.articles :: a.hasHeading2 && a.hasButtonLink
  }

  /** At least three `picture > source` elements, each with `media` and `srcset`. */
  predicate PictureSources(doc: Document) {
    |doc.pictureSources| >= 3
    && forall src | src in doc.pictureSources :: src.hasMedia && src.hasSrcset
  }

  /** Some `<img>` whose `src` ends in `.svg` (the selector `img[src$='.svg']`). */
  predicate LoadsSvgImage(doc: Document) {
    exists img | img in doc.images :: EndsWith(img.src, ".svg")
  }

  /** A `section.hero` exists and has an `<h1>` and a `<p>`; with no such
      section the test reads a property of null and fails. */
  predicate HeroContents(doc: Document) {
    doc.hero.Some? && doc.hero.value.hasHeading1 && doc.hero.value.hasParagraph
  }

  /** Exactly four `.card`s inside `section.cards`. */
  predicate FourCards(doc: Document) {
    doc.cardCount == 4
  }

  /** At least two `article.panel`s. */
  predicate TwoPanels(doc: Document) {
    |Panels(doc.articles)| >= 2
  }

  /** Every `article.panel` has exactly one `.left` descendant. */
  predicate OneLeftPerPanel(doc: Document) {
    forall p | p in Panels(doc.articles) :: p.leftCount == 1
  }

  /** The main stylesheet is checked by position, not by being last: a link
      appended after it leaves the verdict passing, whatever the link. */
  lemma {:induction false} StylesheetOrderKeepsAppended(hrefs: seq<string>, extra: string, isIndex: bool)
    requires StylesheetOrder(hrefs, isIndex)
    ensures StylesheetOrder(hrefs + [extra], isIndex)
  {
    var longer := hrefs + [extra];
    assert longer[0] == hrefs[0] && longer[1] == hrefs[1] && longer[2] == hrefs[2];
  }

  /** A link other than the main stylesheet inserted before it, pushing it
      to fourth place, makes the check fail. */
  lemma {:induction false} StylesheetOrderIsPositional(hrefs: seq<string>, extra: string, isIndex: bool)
    requires StylesheetOrder(hrefs, isIndex)
    requires extra != MainHref(isIndex)
    ensures !StylesheetOrder(hrefs[..2] + [extra] + hrefs[2..], isIndex)
  {
    var moved := hrefs[..2] + [extra] + hrefs[2..];
    assert moved[2] == extra;
  }

  /** No list of stylesheet links satisfies both the index page and the other pages. */
  lemma StylesheetOrderDependsOnPage(hrefs: seq<string>)
    ensures !(StylesheetOrder(hrefs, true) && StylesheetOrder(hrefs, false))
  {
    if |hrefs| >= 3 && hrefs[2] == MainHref(true) {
      assert |hrefs[2]| != |MainHref(false)|;
    }
  }

  /** Any href naming `normalize.` followed by `css` on the same line passes
      the first position's check. */
  lemma {:induction false} NormalizeLiteral(pre: string, mid: string, post: string)
    requires forall k | 0 <= k < |mid| :: !IsLineTerminator(mid[k])
    ensures NormalizeMatches(pre + "normalize." + mid + "css" + post)
  {
    var href := pre + "normalize." + mid + "css" + post;
    var p, q := |pre|, |pre| + 10 + |mid|;
    assert href[p..p + 10] == "normalize.";
    assert href[q..q + 3] == "css";
    assert NoLineTerminator(href, p + 10, q) by {
      forall k | p + 10 <= k < q ensures !IsLineTerminator(href[k]) {
        assert href[k] == mid[k - p - 10];
      }
    }
    assert StartsAt(href, q, "css");
    assert StartsAt(href, p, "normalize.") &&
      exists q' | p + 10 <= q' <= |href| :: NoLineTerminator(href, p + 10, q') && StartsAt(href, q', "css");
  }

  /** The literal host name always passes the second position's check, and
      so does any host that differs from it only at the two dots, by
      characters of one code unit each. */
  lemma {:induction false} FontsHostVariants(pre: string, c1: char, c2: char, post: string)
    requires DotMatches(c1) && DotMatches(c2)
    ensures FontsMatches(pre + "fonts" + [c1] + "googleapis" + [c2] + "com" + post)
  {
    var href := pre + "fonts" + [c1] + "googleapis" + [c2] + "com" + post;
    var p := |pre|;
    assert href[p..p + 5] == "fonts";
    assert href[p + 5] == c1;
    assert href[p + 6..p + 16] == "googleapis";
    assert href[p + 16] == c2;
    assert href[p + 17..p + 20] == "com";
    assert FontsAt(href, p);
  }

  /** A character stored as a surrogate pair in place of the first dot
      fails the check: the dot takes the first unit and `googleapis` would
      have to begin at the second. */
  lemma {:induction false} FontsHostRejectsSurrogatePair(c: char)
    requires IsAstral(c)
    ensures !FontsMatches("fonts" + [c] + "googleapis.com")
  {
    var href := "fonts" + [c] + "googleapis.com";
    var tail := href[1..];
    assert tail == "onts" + [c] + "googleapis.com";
    assert 'f' !in tail;
    forall p | 0 <= p <= |href| ensures !FontsAt(href, p) {
      if p == 0 {
        assert href[5] == c;
      } else if p < |href| {
        assert href[p] == tail[p - 1];
      }
    }
  }

  /** A document that passes the two-panel test also passes the index page's
      "at least two articles" requirement: every panel is an article. */
  lemma TwoPanelsHaveTwoArticles(doc: Document)
    requires TwoPanels(doc)
    ensures |doc.articles| >= 2
  {
  }

  /** The two-panel rule counts positions, not distinct articles: two
      panels with identical contents count twice. */
  lemma TwoPanelsAt(doc: Document)
    ensures TwoPanels(doc) <==>
      exists i, j | 0 <= i < j < |doc.articles| :: doc.articles[i].isPanel && doc.articles[j].isPanel
  {
    TwoPanelPositions(doc.articles);
  }

  /** The one-`.left` rule, stated over article positions: a panel with any
      other number of `.left`s fails it, whatever the other articles hold. */
  lemma {:induction false} OneLeftPerPanelAt(doc: Document)
    ensures OneLeftPerPanel(doc) <==>
      forall i | 0 <= i < |doc.articles| :: doc.articles[i].isPanel ==> doc.articles[i].leftCount == 1
  {
    var ps := Panels(doc.articles);
    if OneLeftPerPanel(doc) {
      forall i | 0 <= i < |doc.articles| && doc.articles[i].isPanel
        ensures doc.articles[i].leftCount == 1
      {
        assert doc.articles[i] in doc.articles;
      }
    }
  }
}
