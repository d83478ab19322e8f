/** The stylesheet tests of tests/dom-check.test.js. Each regular expression
    the tests build is written out as a predicate over the stylesheet text;
    a regular expression's `test` is "the pattern matches at some index".
    Whitespace runs are scanned greedily, which the lemmas at the end show is
    what the regular expressions' backtracking finds as well. */
module Css {
  import opened Text

  /** `selector\s*{` (minSpace 0) or `selector\s+{` (minSpace 1). */
  datatype Block = Block(selector: string, minSpace: nat)

  /** A declaration pattern: the property name, `\s*` before the colon when
      `spaceBeforeColon`, the colon, at least `minSpaceAfter` whitespace
      characters, then `value` (empty when only the name is looked for). */
  datatype Decl = Decl(name: string, spaceBeforeColon: bool, minSpaceAfter: nat, value: string)

  /** The value must not begin with whitespace, as in every pattern of the suite. */
  predicate DeclWellFormed(d: Decl) {
    d.value == [] || !IsSpace(d.value[0])
  }

  /** `selector\s*{` or `selector\s+{` matches at `i`. */
  predicate BlockOpensAt(s: string, i: nat, b: Block) {
    StartsAt(s, i, b.selector)
    && var j := SpaceRunEnd(s, i + |b.selector|);
       j >= i + |b.selector| + b.minSpace && j < |s| && s[j] == '{'
  }

  /** Index of the `{` of a block that opens at `i`. */
  function BraceOf(s: string, i: nat, b: Block): (j: nat)
    requires BlockOpensAt(s, i, b)
    ensures i + |b.selector| + b.minSpace <= j < |s| && s[j] == '{'
    ensures Spaces(s, i + |b.selector|, j)
  {
    SpaceRunEnd(s, i + |b.selector|)
  }

  /** The declaration pattern matches at `k`. */
  predicate DeclAt(s: string, k: nat, d: Decl) {
    StartsAt(s, k, d.name)
    && var c := if d.spaceBeforeColon then SpaceRunEnd(s, k + |d.name|) else k + |d.name|;
       c < |s| && s[c] == ':'
       && var v := SpaceRunEnd(s, c + 1);
          v >= c + 1 + d.minSpaceAfter && StartsAt(s, v, d.value)
  }

  /** `[^}]+` after the brace at `j`, then the declaration: at least one
      character, none of them `}`, lies between the brace and the declaration. */
  predicate BodyHas(s: string, j: nat, d: Decl) {
    exists k | j + 2 <= k <= |s| :: NoCloseBrace(s, j + 1, k) && DeclAt(s, k, d)
  }

  /** `selector\s*{[^}]+declaration` matches somewhere in the stylesheet. */
  predicate BlockHas(s: string, b: Block, d: Decl) {
    exists i | 0 <= i < |s| :: BlockOpensAt(s, i, b) && BodyHas(s, BraceOf(s, i, b), d)
  }

  /** The block opened by the brace at `j` starts its text on a new,
      indented line (`\s*\n\s+`); that text begins at `SpaceRunEnd(s, j + 1)`. */
  predicate IndentedFirstLine(s: string, j: nat)
    requires j < |s|
  {
    var r := SpaceRunEnd(s, j + 1);
    exists p | j + 1 <= p < r - 1 :: s[p] == '\n'
  }

  // The blocks and declarations the suite looks for.
  const Universal := Block("*", 1)
  const Root := Block(":root", 1)
  const BodySpaced := Block("body", 1)
  const Body := Block("body", 0)
  const Button := Block(".button", 0)
  const ButtonHover := Block(".button:hover", 0)
  const HeroHeading := Block(".hero h1", 0)
  const Main := Block("main", 0)
  const AnchorHover := Block("a[href]:hover", 1)

  const BoxSizing := Decl("box-sizing", false, 1, "border-box")
  const TextDecorationNone := Decl("text-decoration", false, 1, "none")
  const FontSizeClamp := Decl("font-size", false, 0, "clamp(")
  const MaxWidthSet := Decl("max-width", true, 0, "")

  /** Lines 148 and 152: `body\s+{[^}]+NAME:` for each of the three names. */
  const Typography: seq<Decl> :=
    [Decl("font-family", false, 0, ""), Decl("color", false, 0, ""), Decl("line-height", false, 0, "")]

  /** Lines 205 and 209: `body\s*{[^}]+display:\s+flex` and `...flex-direction:\s+column`. */
  const FlexColumn: seq<Decl> :=
    [Decl("display", false, 1, "flex"), Decl("flex-direction", false, 1, "column")]

  /** `/\*\s+\{\s*\n\s+box-sizing:\s+border-box/`. */
  predicate BoxSizingAt(s: string, i: nat) {
    BlockOpensAt(s, i, Universal)
    && var j := BraceOf(s, i, Universal);
       IndentedFirstLine(s, j) && DeclAt(s, SpaceRunEnd(s, j + 1), BoxSizing)
  }

  /** `/:root\s+\{\s*\n\s+--/`. */
  predicate RootVariablesAt(s: string, i: nat) {
    BlockOpensAt(s, i, Root)
    && var j := BraceOf(s, i, Root);
       IndentedFirstLine(s, j) && StartsAt(s, SpaceRunEnd(s, j + 1), "--")
  }

  /** Lines 140-145: the global box-sizing rule and the custom properties on `:root`. */
  predicate GlobalRules(css: string) {
    (exists i | 0 <= i < |css| :: BoxSizingAt(css, i))
    && (exists i | 0 <= i < |css| :: RootVariablesAt(css, i))
  }

  /** `/^a\s[^}]+text-decoration:\s+none/m` matches at `i`. */
  predicate AnchorUnderlineAt(s: string, i: nat) {
    LineStart(s, i) && i + 1 < |s| && s[i] == 'a' && IsSpace(s[i + 1])
    && exists k | i + 3 <= k <= |s| :: NoCloseBrace(s, i + 2, k) && DeclAt(s, k, TextDecorationNone)
  }

  /** `/^a\[href\]:hover\s+{$/m` matches at `i`. */
  predicate AnchorHoverAt(s: string, i: nat) {
    LineStart(s, i) && BlockOpensAt(s, i, AnchorHover) && LineEnd(s, BraceOf(s, i, AnchorHover) + 1)
  }

  /** Lines 162-167: links lose their underline, and `a[href]:hover` has a rule of its own. */
  predicate AnchorRules(css: string) {
    (exists i | 0 <= i < |css| :: AnchorUnderlineAt(css, i))
    && (exists i | 0 <= i < |css| :: AnchorHoverAt(css, i))
  }

  /** Some block with the given selector opens in the stylesheet. */
  predicate HasBlock(css: string, b: Block) {
    exists i | 0 <= i < |css| :: BlockOpensAt(css, i, b)
  }

  /** Lines 169-174: `.button` and `.button:hover` rules. */
  predicate ButtonRules(css: string) {
    HasBlock(css, Button) && HasBlock(css, ButtonHover)
  }

  /** Lines 183-186: the hero heading's font size uses `clamp(`. */
  predicate HeroHeadingClamped(css: string) {
    BlockHas(css, HeroHeading, FontSizeClamp)
  }

  /** Lines 219-222: `main` sets `max-width`. */
  predicate MainMaxWidth(css: string) {
    BlockHas(css, Main, MaxWidthSet)
  }

  /** Every listed declaration is found in a block with the given selector. */
  predicate AllDeclarations(css: string, b: Block, decls: seq<Decl>) {
    forall k | 0 <= k < |decls| :: BlockHas(css, b, decls[k])
  }

  /** Lines 149-159 and 206-216: each declaration pattern is tried in turn;
      `fail` starts false, a miss sets it, and nothing resets it. */
  method CheckDeclarations(css: string, b: Block, decls: seq<Decl>) returns (fail: bool)
    ensures fail <==> exists k | 0 <= k < |decls| :: !BlockHas(css, b, decls[k])
  {
    fail := false;
    var n := 0;
    while n < |decls|
      invariant 0 <= n <= |decls|
      invariant fail <==> exists k | 0 <= k < n :: !BlockHas(css, b, decls[k])
    {
      if !BlockHas(css, b, decls[n]) {
        fail := true;
      }
      n := n + 1;
    }
  }

  /** `/@media\s*\(min-width/` matches at `i`. */
  predicate MediaQueryAt(s: string, i: nat) {
    StartsAt(s, i, "@media") && StartsAt(s, SpaceRunEnd(s, i + 6), "(min-width")
  }

  /** Where a match at `i` ends, and the global search resumes. */
  function MediaQueryEnd(s: string, i: nat): (e: nat)
    requires MediaQueryAt(s, i)
    ensures i + 16 <= e <= |s|
  {
    SpaceRunEnd(s, i + 6) + 10
  }

  /** The number of matches a global search finds from `i` on, resuming
      after each match. */
  function CountMediaQueriesFrom(s: string, i: nat): nat
    requires i <= |s|
    decreases |s| - i
  {
    if i == |s| then 0
    else if MediaQueryAt(s, i) then 1 + CountMediaQueriesFrom(s, MediaQueryEnd(s, i))
    else CountMediaQueriesFrom(s, i + 1)
  }

  /** Line 199: `(css.match(/@media\s*\(min-width/g) || []).length`; no
      match gives 0. */
  function MediaQueryCount(css: string): nat {
    CountMediaQueriesFrom(css, 0)
  }

  /** Line 200: at least two `min-width` media queries. */
  predicate TwoMediaQueries(css: string) {
    MediaQueryCount(css) >= 2
  }

  /** The indices from `i` on where the media-query pattern matches. */
  ghost function MediaQueryStarts(s: string, i: nat): set<nat> {
    set p: nat | i <= p < |s| && MediaQueryAt(s, p)
  }

  /** A match covers no other match's start: past its `@`, a match holds
      only letters, whitespace, `(` and `-`. */
  lemma MatchesDoNotOverlap(s: string, i: nat, p: nat)
    requires MediaQueryAt(s, i)
    requires i < p < MediaQueryEnd(s, i)
    ensures !MediaQueryAt(s, p)
  {
    var r := SpaceRunEnd(s, i + 6);
    var at: char := s[p];
    if p < i + 6 {
      assert at == "@media"[p - i];
    } else if p < r {
      assert IsSpace(at);
    } else {
      assert at == "(min-width"[p - r];
    }
    assert at != '@';
    assert "@media"[0] == '@';
  }

  /** No match at `i`: the matches from `i` on are those from `i + 1` on. */
  lemma StartsWithoutMatch(s: string, i: nat)
    requires i < |s| && !MediaQueryAt(s, i)
    ensures MediaQueryStarts(s, i) == MediaQueryStarts(s, i + 1)
  {
    forall p: nat ensures p in MediaQueryStarts(s, i) <==> p in MediaQueryStarts(s, i + 1) {
      if p == i {
        assert p !in MediaQueryStarts(s, i);
      }
    }
  }

  /** A match at `i`: the matches from `i` on are `i` and those from its end on. */
  lemma StartsWithMatch(s: string, i: nat)
    requires MediaQueryAt(s, i)
    ensures MediaQueryStarts(s, i) == {i} + MediaQueryStarts(s, MediaQueryEnd(s, i))
  {
    var e := MediaQueryEnd(s, i);
    forall p: nat ensures p in MediaQueryStarts(s, i) <==> p in {i} + MediaQueryStarts(s, e) {
      if i < p < e {
        MatchesDoNotOverlap(s, i, p);
      }
    }
  }

  /** The global search misses no match: the count is the number of indices
      where the pattern matches. */
  lemma {:induction false} CountIsNumberOfMatches(s: string, i: nat)
    requires i <= |s|
    ensures CountMediaQueriesFrom(s, i) == |MediaQueryStarts(s, i)|
    decreases |s| - i
  {
    if i == |s| {
      assert MediaQueryStarts(s, i) == {};
    } else if MediaQueryAt(s, i) {
      var e := MediaQueryEnd(s, i);
      CountIsNumberOfMatches(s, e);
      StartsWithMatch(s, i);
      assert i !in MediaQueryStarts(s, e);
    } else {
      CountIsNumberOfMatches(s, i + 1);
      StartsWithoutMatch(s, i);
    }
  }

  /** The media-query test passes exactly when the pattern matches at two
      different indices. */
  lemma TwoMediaQueriesIff(css: string)
    ensures TwoMediaQueries(css) <==>
      exists p, q | 0 <= p < q < |css| :: MediaQueryAt(css, p) && MediaQueryAt(css, q)
  {
    var starts := MediaQueryStarts(css, 0);
    CountIsNumberOfMatches(css, 0);
    TwoMembers(starts);
    if exists p, q | 0 <= p < q < |css| :: MediaQueryAt(css, p) && MediaQueryAt(css, q) {
      var p, q :| 0 <= p < q < |css| && MediaQueryAt(css, p) && MediaQueryAt(css, q);
      assert p in starts && q in starts;
    }
  }

  /** A set has two or more members exactly when it has a smaller and a larger one. */
  lemma TwoMembers(a: set<nat>)
    ensures |a| >= 2 <==> exists p, q | p in a && q in a :: p < q
  {
    if |a| >= 2 {
      var p :| p in a;
      assert a == (a - {p}) + {p};
      var q :| q in a - {p};
      if p < q {
        assert p in a && q in a && p < q;
      } else {
        assert q in a && p in a && q < p;
      }
    }
    if exists p, q | p in a && q in a :: p < q {
      var p, q :| p in a && q in a && p < q;
      SubsetSize({p, q}, a);
    }
  }

  /** The count is 0 exactly when the pattern matches nowhere. */
  lemma NoMediaQueryIff(css: string)
    ensures MediaQueryCount(css) == 0 <==> forall p | 0 <= p < |css| :: !MediaQueryAt(css, p)
  {
    CountIsNumberOfMatches(css, 0);
    if exists p | 0 <= p < |css| :: MediaQueryAt(css, p) {
      var p :| 0 <= p < |css| && MediaQueryAt(css, p);
      assert p in MediaQueryStarts(css, 0);
    }
  }

  lemma SubsetSize(a: set<nat>, b: set<nat>)
    requires a <= b
    ensures |a| <= |b|
  {
    assert b == a + (b - a);
  }

  /** `\s{m,}value` after the colon at `c`, with the run chosen freely. */
  predicate ValueFreely(s: string, c: nat, d: Decl) {
    exists v | c + 1 + d.minSpaceAfter <= v <= |s| :: Spaces(s, c + 1, v) && StartsAt(s, v, d.value)
  }

  /** The regular-expression reading of a declaration pattern, with the
      whitespace runs chosen freely. */
  predicate DeclMatchesFreely(s: string, k: nat, d: Decl) {
    StartsAt(s, k, d.name)
    && exists c | k + |d.name| <= c < |s| ::
         (if d.spaceBeforeColon then Spaces(s, k + |d.name|, c) else c == k + |d.name|)
         && s[c] == ':' && ValueFreely(s, c, d)
  }

  /** The greedy scan of a declaration pattern finds a match exactly when
      the regular expression does. */
  lemma DeclAtAgreesWithRegex(s: string, k: nat, d: Decl)
    requires DeclWellFormed(d)
    ensures DeclAt(s, k, d) <==> DeclMatchesFreely(s, k, d)
  {
    if DeclAt(s, k, d) {
      GreedyDeclMatches(s, k, d);
    }
    if DeclMatchesFreely(s, k, d) {
      FreeDeclIsGreedy(s, k, d);
    }
  }

  lemma GreedyDeclMatches(s: string, k: nat, d: Decl)
    requires DeclWellFormed(d) && DeclAt(s, k, d)
    ensures DeclMatchesFreely(s, k, d)
  {
    var n := k + |d.name|;
    var c := if d.spaceBeforeColon then SpaceRunEnd(s, n) else n;
    ValueAfterColon(s, c, d);
    assert (if d.spaceBeforeColon then Spaces(s, n, c) else c == n) && s[c] == ':';
  }

  lemma FreeDeclIsGreedy(s: string, k: nat, d: Decl)
    requires DeclWellFormed(d) && DeclMatchesFreely(s, k, d)
    ensures DeclAt(s, k, d)
  {
    var n := k + |d.name|;
    var c :| n <= c < |s| && (if d.spaceBeforeColon then Spaces(s, n, c) else c == n) && s[c] == ':'
      && ValueFreely(s, c, d);
    if d.spaceBeforeColon {
      SpaceRunForced(s, n, c);
    }
    ValueAfterColon(s, c, d);
  }

  lemma ValueAfterColon(s: string, c: nat, d: Decl)
    requires c < |s| && DeclWellFormed(d)
    ensures ValueFreely(s, c, d)
        <==> (SpaceRunEnd(s, c + 1) >= c + 1 + d.minSpaceAfter && StartsAt(s, SpaceRunEnd(s, c + 1), d.value))
  {
    var r := SpaceRunEnd(s, c + 1);
    if d.value == [] {
      if r >= c + 1 + d.minSpaceAfter {
        var v := c + 1 + d.minSpaceAfter;
        assert Spaces(s, c + 1, v) && StartsAt(s, v, d.value);
      }
      if exists v | c + 1 + d.minSpaceAfter <= v <= |s| :: Spaces(s, c + 1, v) && StartsAt(s, v, d.value) {
        var v :| c + 1 + d.minSpaceAfter <= v <= |s| && Spaces(s, c + 1, v) && StartsAt(s, v, d.value);
        assert r >= v;
      }
    } else {
      SpacesThen(s, c + 1, d.minSpaceAfter, d.value);
    }
  }

  /** The regular-expression reading of a block opening, with the whitespace
      before the brace chosen freely. */
  predicate BlockOpensFreely(s: string, i: nat, b: Block) {
    StartsAt(s, i, b.selector)
    && exists j | i + |b.selector| + b.minSpace <= j < |s| :: Spaces(s, i + |b.selector|, j) && s[j] == '{'
  }

  /** The greedy scan of a block opening agrees with the regular expression,
      and the brace it finds is the only one the expression can use. */
  lemma BlockOpensAgreesWithRegex(s: string, i: nat, b: Block)
    ensures BlockOpensAt(s, i, b) <==> BlockOpensFreely(s, i, b)
    ensures forall j | i + |b.selector| + b.minSpace <= j < |s| && StartsAt(s, i, b.selector)
                       && Spaces(s, i + |b.selector|, j) && s[j] == '{' ::
              BlockOpensAt(s, i, b) && BraceOf(s, i, b) == j
  {
    if StartsAt(s, i, b.selector) {
      var n := i + |b.selector|;
      SpacesThen(s, n, b.minSpace, "{");
      forall j | n <= j < |s| && Spaces(s, n, j) && s[j] == '{'
        ensures SpaceRunEnd(s, n) == j
      {
        SpaceRunForced(s, n, j);
      }
      if BlockOpensFreely(s, i, b) {
        var j :| n + b.minSpace <= j < |s| && Spaces(s, n, j) && s[j] == '{';
        assert StartsAt(s, j, "{");
      }
      if BlockOpensAt(s, i, b) {
        var j := SpaceRunEnd(s, n);
        assert StartsAt(s, j, "{");
      }
    }
  }

  /** The regular-expression reading of `\s*\n\s+` after the brace at `j`,
      with the runs chosen freely and the next token starting at `q`. */
  predicate IndentedFreely(s: string, j: nat, q: nat) {
    exists p | j + 1 <= p && p + 2 <= q ::
      Spaces(s, j + 1, p) && Spaces(s, p + 1, q) && s[p] == '\n'
  }

  /** The greedy reading of a block's indented first line agrees with the
      regular expression: a token that does not start with whitespace
      follows `\s*\n\s+` at `q` exactly when the whitespace run after the
      brace ends at `q` and holds a newline before its last character. */
  lemma IndentedFirstLineAgreesWithRegex(s: string, j: nat, q: nat)
    requires j < |s| && q < |s| && !IsSpace(s[q])
    ensures (IndentedFirstLine(s, j) && SpaceRunEnd(s, j + 1) == q) <==> IndentedFreely(s, j, q)
  {
    var r := SpaceRunEnd(s, j + 1);
    if IndentedFirstLine(s, j) && r == q {
      var p :| j + 1 <= p < r - 1 && s[p] == '\n';
      assert Spaces(s, j + 1, p) && Spaces(s, p + 1, q);
    }
    if IndentedFreely(s, j, q) {
      var p :| j + 1 <= p && p + 2 <= q && Spaces(s, j + 1, p) && Spaces(s, p + 1, q) && s[p] == '\n';
      assert IsSpace(s[p]);
      assert Spaces(s, j + 1, q);
      SpaceRunForced(s, j + 1, q);
    }
  }

  /** `color:` is found inside `background-color:` as well: a body rule
      setting only a background colour passes the colour check. */
  lemma {:induction false} ColorFoundInBackgroundColor(post: string)
    ensures BlockHas("body {\n  background-color:" + post, BodySpaced, Typography[1])
  {
    var s := "body {\n  background-color:" + post;
    assert StartsAt(s, 0, "body");
    assert s[4] == ' ' && s[5] == '{';
    assert SpaceRunEnd(s, 5) == 5;
    assert SpaceRunEnd(s, 4) == 5;
    assert BlockOpensAt(s, 0, BodySpaced);
    var k := 20;
    assert s[k..k + 5] == "color";
    assert s[25] == ':';
    assert DeclAt(s, k, Typography[1]);
    assert NoCloseBrace(s, 6, k);
    assert BodyHas(s, 5, Typography[1]);
  }

  /** A stylesheet without the text `.button:hover` fails the hover half of
      the button test, whatever base `.button` rule it has. */
  lemma NoHoverRuleWithoutSelector(css: string)
    requires !Contains(css, ".button:hover")
    ensures !ButtonRules(css)
  {
  }
}
