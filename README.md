# Conformance checks of a responsive-layout exercise, in Dafny

The repository checks a small static site (an index page, an about page, a
contact page, one stylesheet and the images they use) with one Jest suite,
`tests/dom-check.test.js`. This project models what that suite decides. The
rendered documents, the stylesheet text and the image decoder are inputs.
Every test becomes a verdict, computed in source order.

- `Text` (text.dfy): the character classes the regular expressions use. It
  has JavaScript's `\s`, the line terminators that `.` does not match, and
  the characters a single `.` cannot take whole.
  It also has substring primitives and a greedy whitespace-run scanner.
- `Artifacts` (artifacts.dfy): a document reduced to the answers its
  selectors give: presence flags, counts, stylesheet hrefs, `<img>`
  elements, articles, picture sources and the hero section.
- `Structure` (structure.dfy): the `<head>` test, including the positional
  stylesheet-order check with its `mainFound` flag. It also has the
  presence and cardinality rules of the general and index-page tests.
- `Images` (images.dfy): the loop that gathers every `<img>`. Then the loop
  that derives paths, decodes them and pushes records. Then the width,
  directory and declared-size tests over those records.
- `Css` (css.dfy): one hand-written predicate per regular expression of the
  stylesheet tests, and the `fail`-flag loop. Also the global
  `@media (min-width` match count.
- `Suite` (suite.dfy): the five `describe` blocks, run in order. It proves
  that every test passes exactly when every artifact conforms on its own.

The proofs worth reading:
- `Images.ImageTestsPassIff` and `Suite.ImageTestsPassIffEveryImage`. The
  width, directory and size tests read only the records that the path test
  pushed before it threw. Even so, all four image tests pass exactly when
  every `<img>` of every document conforms.
- `Css.CountIsNumberOfMatches`: the global search counts every index where
  the media-query pattern matches.
- `Css.DeclAtAgreesWithRegex` and `Css.BlockOpensAgreesWithRegex`: the
  greedy whitespace scan accepts exactly the texts the regular expressions'
  backtracking accepts.

The model follows the code:
- The stylesheet-order rule checks the third link by position, not whichever
  link comes last (`Structure.StylesheetOrderIsPositional`).
- A failing `expect` throws, so each test stops at its first failure. A test
  reports one verdict over all artifacts.
- The path test's loop stops too. That truncates the record list the later
  image tests read (`Images.RecordsStopAtFirstFailure`).
- Strings are sequences of Unicode characters. JavaScript keeps a character
  above U+FFFF as two UTF-16 code units, and a regular expression without
  the `u` flag lets a single `.` take one unit. The two single-dot patterns
  are modelled that way: `^..\/` can consume one such character as its two
  dots (`Images.StripsSurrogatePair`), and neither dot of
  `fonts.googleapis.com` can (`Structure.FontsHostRejectsSurrogatePair`).

## Model

| member | source | states |
|---|---|---|
| Text.SpaceRunEnd | tests/dom-check.test.js:141-143 | a greedy `\s*` run from `i` ends at the first non-whitespace character or at the end, and every character it covers is whitespace |
| Text.SpaceRunForced | tests/dom-check.test.js:141-143 | any whitespace run that ends at a non-whitespace character is the greedy run |
| Text.SpacesThen | tests/dom-check.test.js:152 | "at least `m` whitespace characters, then a text that does not start with whitespace" matches for some run length iff it matches for the greedy run |
| Artifacts.Panels | tests/dom-check.test.js:225 | `article.panel` selects articles with class `panel`, no more than there are articles, and all of them |
| Artifacts.SomePanel | tests/dom-check.test.js:225 | the selection is non-empty iff some article position holds a panel |
| Artifacts.TwoPanelPositions | tests/dom-check.test.js:225-226 | the selection has two or more entries iff two different article positions hold panels, even when the two articles are equal |
| Artifacts.HasPanelShift | tests/dom-check.test.js:225 | a panel is either the first article or among the rest |
| Artifacts.HasPanelPairShift | tests/dom-check.test.js:225 | two panels are the first article with a later panel, or two panels among the rest |
| Structure.NormalizeMatches | tests/dom-check.test.js:15 | `normalize\..*css`: `normalize.`, then characters other than line terminators, then `css` |
| Structure.FontsAt | tests/dom-check.test.js:16 | `fonts.googleapis.com` at a position, each dot one code unit other than a line terminator |
| Structure.FontsMatches | tests/dom-check.test.js:16 | `fontRegex.test`: the host pattern matches at some position of the href |
| Structure.StylesheetOrder | tests/dom-check.test.js:24-38 | at least three links: normalize first, the font host second, and the page's main stylesheet third by position |
| Structure.HeadConforms | tests/dom-check.test.js:19-38 | one document's `<head>` check: a title, a meta description, a favicon link and the stylesheet order for its page kind |
| Structure.CheckStylesheets | tests/dom-check.test.js:24-38 | the stylesheet check passes iff there are at least three links: the first matches `normalize\..*css`, the second `fonts.googleapis.com`, the third is exactly the page's main-stylesheet href |
| Structure.HeadTest | tests/dom-check.test.js:18-39 | the `<head>` test passes iff every document has a title, a meta description, a favicon and the stylesheet order, with the index document's own main href |
| Structure.StylesheetOrderKeepsAppended | tests/dom-check.test.js:28-37 | appending any link after the main stylesheet keeps the check passing |
| Structure.StylesheetOrderIsPositional | tests/dom-check.test.js:28-37 | inserting a link other than the main stylesheet before it fails the check, as the third link is compared by position |
| Structure.StylesheetOrderDependsOnPage | tests/dom-check.test.js:29-37 | no list of links passes for both the index page and the other pages |
| Structure.NormalizeLiteral | tests/dom-check.test.js:15 | any href with `normalize.` then `css` later on the same line passes the first-link check |
| Structure.FontsHostVariants | tests/dom-check.test.js:16 | the font host passes the second-link check even with any one-unit, non-line-terminator character in place of either dot |
| Structure.FontsHostRejectsSurrogatePair | tests/dom-check.test.js:16 | a character stored as two code units in place of the first dot fails the second-link check |
| Structure.SingleHeading1 | tests/dom-check.test.js:42-43 | exactly one `<h1>` |
| Structure.HeaderNavigation | tests/dom-check.test.js:45-50 | a `<header>`, a `header>nav` and a `header>nav>ul` |
| Structure.IndexLayout | tests/dom-check.test.js:54-65 | a `<picture>`, a `<main>`, two or more `<article>`s, an `<aside>` and a `<footer>` |
| Structure.ArticleContents | tests/dom-check.test.js:67-74 | every article has an `<h2>` and an `a.button`; the `<p>` line never fails |
| Structure.PictureSources | tests/dom-check.test.js:126-133 | three or more `picture > source` elements, each with `media` and `srcset` |
| Structure.LoadsSvgImage | tests/dom-check.test.js:135-136 | some `<img>` whose `src` ends in `.svg` |
| Structure.HeroContents | tests/dom-check.test.js:177-181 | a `section.hero` exists and holds an `<h1>` and a `<p>`; a missing section fails |
| Structure.FourCards | tests/dom-check.test.js:188-191 | exactly four `.card`s inside `section.cards` |
| Structure.TwoPanels | tests/dom-check.test.js:224-227 | two or more `article.panel`s |
| Structure.OneLeftPerPanel | tests/dom-check.test.js:229-235 | every `article.panel` has exactly one `.left` |
| Structure.TwoPanelsAt | tests/dom-check.test.js:224-227 | the two-panel test passes iff two different article positions hold panels |
| Structure.OneLeftPerPanelAt | tests/dom-check.test.js:229-235 | the `.left` test passes iff every article with class `panel` has exactly one `.left` |
| Images.HasRelativePrefix | tests/dom-check.test.js:91 | `^..\/` matches: two code units other than line terminators, then `/`; a character above U+FFFF fills both dots |
| Images.ImagePath | tests/dom-check.test.js:91 | the path is a suffix of the source. It is shorter exactly when `^..\/` matches, by three characters, or by two when the dots take one two-unit character |
| Images.HasUpperOrSpace | tests/dom-check.test.js:86 | the pattern `[A-Z]` or `\s` finds an upper-case ASCII letter or a JavaScript whitespace character |
| Images.IsExempt | tests/dom-check.test.js:87-98 | a path containing `hero` or ending in `svg` is not size-checked |
| Images.MakeRecord | tests/dom-check.test.js:94-99 | the pushed record: the element, its decoded size, its derived path, and `checkDimensions` true unless the path is exempt |
| Images.PathClean | tests/dom-check.test.js:92-100 | the path test for one image: its path decodes and has no upper-case ASCII letter and no whitespace |
| Images.Records | tests/dom-check.test.js:90-101 | the records the path loop pushes: one per image up to the first decode failure (not pushed) or the first bad path (pushed) |
| Images.CollectImages | tests/dom-check.test.js:80-83 | the concatenation loop yields every document's `<img>`s, document by document |
| Images.AllImagesMembers | tests/dom-check.test.js:81-83 | an element is in the gathered list iff some document holds it |
| Images.EveryGatheredImage | tests/dom-check.test.js:80-83 | every gathered `<img>` conforms iff every `<img>` of every document conforms |
| Images.BuildImageRecords | tests/dom-check.test.js:90-101 | the push loop leaves exactly the records `Records` describes. The path test passes iff every image decodes and its path has no `A`-`Z` and no whitespace |
| Images.WidthsBounded | tests/dom-check.test.js:105-108 | every record's decoded width is at most 1920 |
| Images.InImageDirectory | tests/dom-check.test.js:110-115 | every record's path starts with `images/` |
| Images.DimensionsMatch | tests/dom-check.test.js:117-124 | every record not exempt reports exactly its decoded width and height |
| Images.ImageConforms | tests/dom-check.test.js:90-124 | what the four image tests ask of one `<img>`: it decodes, its path is clean and under `images/`, its width is at most 1920, and unless exempt its size is exact |
| Images.RecordsFollowImages | tests/dom-check.test.js:90-101 | record `k` is image `k`'s record: its decoded size, its derived path, and the hero/svg exemption |
| Images.RecordsStopAtFirstFailure | tests/dom-check.test.js:90-101 | at the first failing image the list stops. It stops after that image when it decoded (the push precedes the `expect`) and before it when decoding threw |
| Images.RecordsComplete | tests/dom-check.test.js:90-101 | when the path test passes, every image is recorded |
| Images.RecordTestsPassIff | tests/dom-check.test.js:105-124 | the width, directory and size tests all pass iff each record passes all three |
| Images.RecordShowsConformance | tests/dom-check.test.js:90-124 | an image with a clean path conforms iff its own record passes the three record tests |
| Images.ImageTestsPassOnlyIfConform | tests/dom-check.test.js:78-124 | when all four image tests pass, every image conforms |
| Images.ConformingImagesPassTests | tests/dom-check.test.js:78-124 | when every image conforms, all four image tests pass |
| Images.ImageTestsPassIff | tests/dom-check.test.js:78-124 | the path, width (at most 1920), `images/` and exact-size tests all pass iff every image conforms on its own. Exempt images carry no size constraint, and height is never bounded |
| Images.StripsOnce | tests/dom-check.test.js:91 | `../p` becomes `p`, and `../../p` becomes `../p`: the prefix is removed once |
| Images.StripsSurrogatePair | tests/dom-check.test.js:91 | a two-unit character followed by `/` is removed whole, as the two dots take its two units |
| Images.RootedPathUnchanged | tests/dom-check.test.js:91 | a source already starting with `images/` is left unchanged |
| Images.ExemptPaths | tests/dom-check.test.js:87-98 | any path ending in `svg` (no dot needed), and any path containing `hero`, is exempt from the size test |
| Css.BlockOpensAt | tests/dom-check.test.js:152 | `selector\s*{` (or `\s+`) at a position: the selector, then a whitespace run of the required length, then `{` |
| Css.DeclAt | tests/dom-check.test.js:152 | `name\s*:\s+value` (or its `\s*` variants) at a position, with greedy whitespace runs |
| Css.BraceOf | tests/dom-check.test.js:152 | the brace of a block opening follows its selector after at least the required whitespace |
| Css.BodyHas | tests/dom-check.test.js:152 | `[^}]+decl` after a brace: one or more characters other than `}`, then the declaration |
| Css.BlockHas | tests/dom-check.test.js:152 | `selector\s*{[^}]+decl` matches somewhere in the stylesheet |
| Css.IndentedFirstLine | tests/dom-check.test.js:141-143 | `\s*\n\s+` after a brace: the whitespace run after it holds a newline before its last character |
| Css.BoxSizingAt | tests/dom-check.test.js:141 | `\*\s+\{\s*\n\s+box-sizing:\s+border-box` at a position |
| Css.RootVariablesAt | tests/dom-check.test.js:143 | `:root\s+\{\s*\n\s+--` at a position |
| Css.GlobalRules | tests/dom-check.test.js:140-145 | both global patterns match somewhere: the indented `box-sizing: border-box` rule on `*`, and a custom property first in `:root` |
| Css.IndentedFirstLineAgreesWithRegex | tests/dom-check.test.js:141-144 | after a brace, the next token follows `\s*\n\s+` at `q` iff the greedy whitespace run ends at `q` and holds a newline before its last character |
| Css.AnchorUnderlineAt | tests/dom-check.test.js:163 | `^a\s[^}]+text-decoration:\s+none` (multiline) at a position |
| Css.AnchorHoverAt | tests/dom-check.test.js:165 | `^a\[href\]:hover\s+{$` (multiline) at a position |
| Css.AnchorRules | tests/dom-check.test.js:162-167 | both anchor patterns match at some line: the underline removal and the `a[href]:hover` rule |
| Css.ButtonRules | tests/dom-check.test.js:169-173 | a `.button` block and a `.button:hover` block open somewhere |
| Css.HeroHeadingClamped | tests/dom-check.test.js:183-185 | `\.hero h1\s*\{[^}]+font-size:\s*clamp\(` matches |
| Css.MainMaxWidth | tests/dom-check.test.js:219-221 | `main\s*{[^}]+max-width\s*:` matches |
| Css.AllDeclarations | tests/dom-check.test.js:147-159 | every listed declaration pattern is found in some block with the selector (the typography and flex tests) |
| Css.CheckDeclarations | tests/dom-check.test.js:147-159 | the `fail` flag ends true iff some listed declaration pattern is missing from every block with the selector |
| Css.MediaQueryAt | tests/dom-check.test.js:199 | `@media\s*\(min-width` at a position |
| Css.MediaQueryEnd | tests/dom-check.test.js:199 | a match of `@media\s*\(min-width` is at least 16 characters long and inside the text |
| Css.CountMediaQueriesFrom | tests/dom-check.test.js:199 | the global `match`, resuming after each match |
| Css.MediaQueryCount | tests/dom-check.test.js:199 | the length of the global match list, 0 when nothing matches |
| Css.TwoMediaQueries | tests/dom-check.test.js:200 | the count is at least 2 |
| Css.MatchesDoNotOverlap | tests/dom-check.test.js:199 | no match starts inside another match |
| Css.StartsWithoutMatch | tests/dom-check.test.js:199 | with no match at `i`, the matches from `i` on are those from `i + 1` on |
| Css.StartsWithMatch | tests/dom-check.test.js:199 | with a match at `i`, the matches from `i` on are `i` and those after its end |
| Css.CountIsNumberOfMatches | tests/dom-check.test.js:199 | the global `match` count equals the number of indices where the pattern matches |
| Css.TwoMediaQueriesIff | tests/dom-check.test.js:199-200 | the media-query test passes iff the pattern matches at two different indices |
| Css.NoMediaQueryIff | tests/dom-check.test.js:199 | the count is 0 iff the pattern matches nowhere (the empty-array fallback when nothing matches) |
| Css.DeclAtAgreesWithRegex | tests/dom-check.test.js:209 | the greedy scan of `name\s*:\s+value` accepts exactly what the regular expression accepts |
| Css.GreedyDeclMatches | tests/dom-check.test.js:209 | what the greedy declaration scan accepts, the regular expression accepts |
| Css.FreeDeclIsGreedy | tests/dom-check.test.js:209 | what the regular expression accepts, the greedy declaration scan accepts |
| Css.ValueAfterColon | tests/dom-check.test.js:209 | after the colon, "at least `m` whitespace characters, then the value" holds for some run iff it holds for the greedy run |
| Css.BlockOpensAgreesWithRegex | tests/dom-check.test.js:220 | the greedy scan of `selector\s*{` accepts exactly what the regular expression accepts, and it finds the only brace the expression can use |
| Css.ColorFoundInBackgroundColor | tests/dom-check.test.js:147-152 | a `body` rule that sets only `background-color:` passes the `color:` check |
| Css.NoHoverRuleWithoutSelector | tests/dom-check.test.js:169-173 | a stylesheet without the text `.button:hover` fails the button test |
| Css.TwoMembers | tests/dom-check.test.js:200 | a set has two or more members iff it has a smaller and a larger one |
| Suite.RunGeneral | tests/dom-check.test.js:13-51 | the general-structure block yields the head, single-`<h1>` and header-navigation verdicts |
| Suite.GeneralPassesIff | tests/dom-check.test.js:13-51 | the general block passes iff every document has its head contents, exactly one `<h1>` and `header>nav>ul` |
| Suite.IndexOutcomes | tests/dom-check.test.js:53-75 | the index-page block's two verdicts: the landmarks and the article contents, each failing when the index document is missing |
| Suite.IndexPassesIff | tests/dom-check.test.js:53-75 | the index-page block passes iff the index document exists, has its landmarks and at least two articles, and every article has an `<h2>` and a button link. The `<p>` line is not checked |
| Suite.RunImageTests | tests/dom-check.test.js:77-137 | the image block's verdicts. The later tests are computed from the records the path test built |
| Suite.ImageVerdicts | tests/dom-check.test.js:77-137 | the image block passes iff each of its six verdicts does |
| Suite.ImageTestsPassIffEveryImage | tests/dom-check.test.js:77-137 | the image block passes iff every `<img>` of every document conforms, the index has three or more sources with `media` and `srcset`, and the contact page has an `img` ending `.svg` |
| Suite.LaterImageTestsStopAtFailure | tests/dom-check.test.js:90-124 | after the path test fails at image `f`, the later image tests see at most `f + 1` records |
| Suite.RunCssTests | tests/dom-check.test.js:139-192 | the CSS block's verdicts, with the typography test taken from the `fail` flag |
| Suite.CssPassesIff | tests/dom-check.test.js:139-192 | the CSS block passes iff every stylesheet pattern matches, the hero section has an `<h1>` and a `<p>`, and there are exactly four cards |
| Suite.RunNewTests | tests/dom-check.test.js:197-242 | the last block's verdicts, with the flex test taken from the `fail` flag |
| Suite.NewPassesIff | tests/dom-check.test.js:197-236 | the last block passes iff there are at least two media queries, the body is a flex column, `main` sets `max-width`, and there are two or more panels, each with exactly one `.left` |
| Suite.RunSuite | tests/dom-check.test.js:13-242 | all tests, in source order |
| Suite.SuitePassesIff | tests/dom-check.test.js:13-242 | every test passes iff every document, the index and contact documents, every image and the stylesheet conform on their own |
| Suite.AllPassedAppend | tests/dom-check.test.js:13-242 | the verdicts of two blocks all pass iff each block's do |

## Left out

- Building document trees and running selectors (jsdom, from `./dom-check.js`, is not part of this model). A document is the record of its selectors' answers. Nested-selector semantics such as `header>nav>ul` or `section.cards .card` are taken as given flags and counts.
- `src` and `href` are the strings the element reports. The model assumes relative URLs come back as written in the markup; URL resolution is not modelled.
- The `width` and `height` an `<img>` reports are natural numbers. Parsing the attributes is not modelled.
- Decoding image files (`image-size`) is a map from path to width and height. A path missing from the map is a decode failure, which throws. A decoder answer without a width is not modelled.
- Reading `styles/main.css` from disk: the stylesheet text is an input.
- The Jest harness: `describe`, `test`, `expect` and the `console.log` of the count. Each test is a verdict; test order is kept as the order of `Suite.Outcomes`.
- Failure messages and a rendered report: the suite emits only Jest's verdicts, so the model keeps one verdict per test.
- The `<p>` line of the article test (line 71) compares a node list with null and never fails. `Article.hasParagraph` is read by no rule.
- General regular-expression matching: each pattern of the suite is written out as its own predicate.
- A string holding a lone UTF-16 surrogate: strings are sequences of Unicode characters, so only well-formed pairs, taken whole, are represented.
- The `.*` at the end of the two button patterns matches the empty string and is dropped.
