/** The documents the suite inspects, reduced to what its selectors read.
    Building a document tree from markup and running selectors over it are
    not part of this model: each field below is the answer one selector of
    tests/dom-check.test.js would give. */
module Artifacts {

  /** An `<img>` element: its `src` and the width and height the element
      reports (the reflected `width`/`height` attributes). */
  datatype ImgElement = ImgElement(src: string, width: nat, height: nat)

  /** An `<article>` element: whether it has an `<h2>`, a `<p>` and an
      `<a class="button">` descendant, whether it carries class `panel`, and
      how many `.left` descendants it has. */
  datatype Article = Article(
    hasHeading2: bool,
    hasParagraph: bool,
    hasButtonLink: bool,
    isPanel: bool,
    leftCount: nat)

  /** A `<source>` child of a `<picture>`: whether `getAttribute` finds
      `media` and `srcset` on it. */
  datatype Source = Source(hasMedia: bool, hasSrcset: bool)

  /** The first `section.hero`: whether it has an `<h1>` and a `<p>`. */
  datatype HeroSection = HeroSection(hasHeading1: bool, hasParagraph: bool)

  datatype Option<T> = None | Some(value: T)

  /** One loaded document. */
  datatype Document = Document(
    hasTitle: bool,                 // title
    hasMetaDescription: bool,       // meta[name=description]
    hasFavicon: bool,               // link[rel='shortcut icon']
    stylesheets: seq<string>,       // href of each link[rel='stylesheet'], in document order
    h1Count: nat,                   // h1
    hasHeader: bool,                // header
    hasHeaderNav: bool,             // header>nav
    hasHeaderNavList: bool,         // header>nav>ul
    hasPicture: bool,               // picture
    hasMain: bool,                  // main
    hasAside: bool,                 // aside
    hasFooter: bool,                // footer
    articles: seq<Article>,         // article, in document order
    images: seq<ImgElement>,        // img, in document order
    pictureSources: seq<Source>,    // picture > source
    hero: Option<HeroSection>,      // section.hero
    cardCount: nat)                 // section.cards .card

  /** The articles with class `panel` (`article.panel`), in document order. */
  function Panels(articles: seq<Article>): (panels: seq<Article>)
    ensures |panels| <= |articles|
    ensures forall p | p in panels :: p in articles && p.isPanel
    ensures forall a | a in articles && a.isPanel :: a in panels
  {
    if articles == [] then []
    else if articles[0].isPanel then [articles[0]] + Panels(articles[1..])
    else Panels(articles[1..])
  }
  /** Some position holds a panel. */
  predicate HasPanel(articles: seq<Article>) {
    exists i | 0 <= i < |articles| :: articles[i].isPanel
  }

  /** Two different positions hold panels. */
  predicate HasPanelPair(articles: seq<Article>) {
    exists i, j | 0 <= i < j < |articles| :: articles[i].isPanel && articles[j].isPanel
  }

  /** A panel is at the front or further on. */
  lemma HasPanelShift(articles: seq<Article>)
    requires articles != []
    ensures HasPanel(articles) <==> articles[0].isPanel || HasPanel(articles[1..])
  {
    var rest := articles[1..];
    if HasPanel(rest) {
      var i :| 0 <= i < |rest| && rest[i].isPanel;
      assert articles[i + 1] == rest[i];
    }
    if HasPanel(articles) {
      var i :| 0 <= i < |articles| && articles[i].isPanel;
      if i > 0 {
        assert rest[i - 1] == articles[i];
      }
    }
  }

  /** Two panels are a front panel and a later one, or both further on. */
  lemma HasPanelPairShift(articles: seq<Article>)
    requires articles != []
    ensures HasPanelPair(articles) <==>
      (articles[0].isPanel && HasPanel(articles[1..])) || HasPanelPair(articles[1..])
  {
    var rest := articles[1..];
    if articles[0].isPanel && HasPanel(rest) {
      var j :| 0 <= j < |rest| && rest[j].isPanel;
      assert articles[j + 1] == rest[j];
    }
    if HasPanelPair(rest) {
      var i, j :| 0 <= i < j < |rest| && rest[i].isPanel && rest[j].isPanel;
      assert articles[i + 1] == rest[i] && articles[j + 1] == rest[j];
    }
    if HasPanelPair(articles) {
      var i, j :| 0 <= i < j < |articles| && articles[i].isPanel && articles[j].isPanel;
      assert rest[j - 1] == articles[j];
      if i > 0 {
        assert rest[i - 1] == articles[i];
      }
    }
  }

  /** The selection is non-empty exactly when some position holds a panel. */
  lemma {:induction false} SomePanel(articles: seq<Article>)
    ensures |Panels(articles)| >= 1 <==> HasPanel(articles)
  {
    if articles != [] {
      SomePanel(articles[1..]);
      HasPanelShift(articles);
    }
  }

  /** The selection keeps every panel, equal or not: it has two or more
      entries exactly when two different positions hold panels. */
  lemma {:induction false} TwoPanelPositions(articles: seq<Article>)
    ensures |Panels(articles)| >= 2 <==> HasPanelPair(articles)
  {
    if articles != [] {
      TwoPanelPositions(articles[1..]);
      SomePanel(articles[1..]);
      HasPanelPairShift(articles);
    }
  }
}
