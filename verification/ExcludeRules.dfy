/** A directory-exclusion rule, read by the indexer's walker and by ripgrep. */
module ExcludeRules {
  import opened Wrappers
  import Go = GoPattern
  import Search = GoSearch
  import Rg = RgGlob
  import C = RgClass
  import Text = Names
  import opened GoChunks
  import opened GlobAgreement
  import opened RgTranslate

  /* ---- Normalisation ---- */

  /** Where the slashes that begin at i end. */
  function SlashesFrom(s: string, i: nat): (n: nat)
    requires i <= |s|
    ensures i <= n <= |s| && forall k :: i <= k < n ==> s[k] == '/'
    ensures n < |s| ==> s[n] != '/'
    decreases |s| - i
  {
    if i < |s| && s[i] == '/' then SlashesFrom(s, i + 1) else i
  }

  /** Where the slashes at the end begin. */
  function SlashesTo(s: string, j: nat): (n: nat)
    requires j <= |s|
    ensures n <= j && forall k :: n <= k < j ==> s[k] == '/'
    ensures n > 0 ==> s[n - 1] != '/'
  {
    if j > 0 && s[j - 1] == '/' then SlashesTo(s, j - 1) else j
  }

  function TrimLeftSlashes(s: string): string { s[SlashesFrom(s, 0)..] }

  function TrimRightSlashes(s: string): string { s[..SlashesTo(s, |s|)] }

  predicate NamesNothing(pat: string) { pat == "" || pat == "." || pat == ".." }

  datatype Rule = Rule(pat: string, anchored: bool)

  /** normalizeExcludeRule: None for a rule that names nothing. */
  function NormalizeExcludeRule(raw: string): (r: Option<Rule>)
    ensures r.Some? ==> !NamesNothing(r.value.pat)
    ensures r.Some? ==> r.value.pat[0] != '/' && r.value.pat[|r.value.pat| - 1] != '/'
  {
    Anchored(Text.TrimSpace(raw))
  }

  predicate DotSlash(s: string) { |s| >= 2 && s[0] == '.' && s[1] == '/' }

  predicate HasAnchor(s: string) { DotSlash(s) || (s != "" && s[0] == '/') }

  /** What follows the anchor. */
  function Unanchored(s: string): (body: string)
    ensures body != "" ==> body[0] != '/'
  {
    if HasAnchor(s) then TrimLeftSlashes(if DotSlash(s) then s[2..] else s) else s
  }

  /** The rule in a trimmed text: anchor and slashes taken off. */
  function Anchored(s: string): (r: Option<Rule>)
    ensures r.Some? ==> !NamesNothing(r.value.pat)
    ensures r.Some? ==> r.value.pat[0] != '/' && r.value.pat[|r.value.pat| - 1] != '/'
  {
    var pat := TrimRightSlashes(Unanchored(s));
    if NamesNothing(pat) then None else Some(Rule(pat, HasAnchor(s)))
  }

  predicate AllSlashes(s: string) { forall i :: 0 <= i < |s| ==> s[i] == '/' }

  /** What a trimmed text has in front of its rule: an anchor with any number of
      slashes, or nothing. */
  predicate Anchor(lead: string, anchored: bool) {
    if anchored then (DotSlash(lead) && AllSlashes(lead[2..])) || (lead != "" && AllSlashes(lead)) else lead == ""
  }

  lemma TrimmedRule(s: string) returns (lead: string, pat: string, slashes: string)
    ensures s == lead + pat + slashes && Anchor(lead, HasAnchor(s)) && AllSlashes(slashes)
    ensures pat != "" ==> pat[0] != '/' && pat[|pat| - 1] != '/'
    ensures Anchored(s) == if NamesNothing(pat) then None else Some(Rule(pat, HasAnchor(s)))
  {
    hide SlashesFrom, SlashesTo, Unanchored, Anchor, HasAnchor, NamesNothing;
    var body;
    lead, body := AtAnchor(s);
    var n := SlashesTo(body, |body|);
    pat, slashes := body[..n], body[n..];
    assert lead + (pat + slashes) == lead + pat + slashes;
  }

  lemma PlainRule(raw: string)
    requires raw != "" && !NamesNothing(raw) && !HasAnchor(raw) && raw[|raw| - 1] != '/'
    requires !Text.IsSpace(raw[0]) && !Text.IsSpace(raw[|raw| - 1])
    ensures NormalizeExcludeRule(raw) == Some(Rule(raw, false))
  {
    hide Text.TrimSpace, Text.IsSpace, NamesNothing;
    Text.NothingToTrim(raw);
    assert SlashesTo(raw, |raw|) == |raw|;
    assert TrimRightSlashes(raw) == raw;
  }

  lemma AtAnchor(s: string) returns (lead: string, body: string)
    ensures s == lead + body && Anchor(lead, HasAnchor(s)) && body == Unanchored(s)
    ensures body != "" ==> body[0] != '/'
  {
    hide SlashesFrom;
    lead, body := "", s;
    if DotSlash(s) {
      var n := SlashesFrom(s[2..], 0);
      lead, body := s[..n + 2], s[2..][n..];
      assert lead[2..] == s[2..][..n];
    } else if HasAnchor(s) {
      var n := SlashesFrom(s, 0);
      lead, body := s[..n], s[n..];
    }
  }

  /** A raw rule is white space, an anchor, the pattern, slashes, white space.
      It is anchored exactly when an anchor is there, and it is a rule exactly
      when the pattern between is not empty and not a dot segment. */
  lemma NormalizedRule(raw: string) returns (before: string, lead: string, pat: string, slashes: string, after: string)
    ensures raw == before + (lead + pat + slashes) + after && Text.AllSpace(before) && Text.AllSpace(after)
    ensures var s := lead + pat + slashes;
            && (s != "" ==> !Text.IsSpace(s[0]) && !Text.IsSpace(s[|s| - 1]))
            && Anchor(lead, HasAnchor(s)) && AllSlashes(slashes)
            && (pat != "" ==> pat[0] != '/' && pat[|pat| - 1] != '/')
            && NormalizeExcludeRule(raw) == if NamesNothing(pat) then None else Some(Rule(pat, HasAnchor(s)))
  {
    hide Text.TrimSpace, Text.IsSpace, Text.AllSpace, Anchor, AllSlashes, HasAnchor, Anchored;
    before, after := Text.TrimmedOff(raw);
    lead, pat, slashes := TrimmedRule(Text.TrimSpace(raw));
  }

  /** Whether the rule is matched against the path instead of the base name. */
  predicate AllowsSlash(r: Rule) { r.anchored || '/' in r.pat }

  /* ---- The walker ---- */

  function Base(path: string): (b: string)
    ensures |b| <= |path| && b == path[|path| - |b|..] && Go.NoSlash(b)
    ensures |b| < |path| ==> path[|path| - |b| - 1] == '/'
  {
    if path == "" || path[|path| - 1] == '/' then "" else Base(path[..|path| - 1]) + [path[|path| - 1]]
  }

  /** What the rule is compared with. */
  function Target(r: Rule, rel: string): string { if AllowsSlash(r) then rel else Base(rel) }

  predicate Names(pat: string, s: string) { s == pat || Search.FileMatch(pat, s) }

  /** The rule matches this directory itself. rel is its path from the root of
      the workspace. */
  predicate WalkerNames(r: Rule, rel: string) {
    Names(r.pat, Target(r, rel))
  }

  /** The test of ShouldSkipDirIn for one user rule. */
  predicate WalkerSkips(r: Rule, rel: string) {
    WalkerNames(r, rel) || (AllowsSlash(r) && r.pat + "/" <= rel)
  }

  /* ---- ripgrep ---- */

  predicate Boundary(path: string, k: nat)
    requires k <= |path|
  {
    k == 0 || path[k - 1] == '/'
  }

  /** How ripgrep applies an ignore glob to a path: with any-depth prefix, or
      without a separator, to every tail at a boundary; otherwise anchored. */
  ghost predicate RgHits(glob: string, path: string) {
    if "**/" <= glob then TailIn(Rg.Language(glob[3..]), path)
    else if '/' !in glob then TailIn(Rg.Language(glob), path)
    else path in Rg.Language(if glob[0] == '/' then glob[1..] else glob)
  }

  ghost predicate SomeHit(globs: seq<string>, path: string) {
    exists g :: g in globs && RgHits(g, path)
  }

  lemma NoSlashFrom(path: string, k: nat)
    requires k <= |path| && Go.NoSlash(path[k..])
    ensures forall j :: k <= j < |path| ==> path[j] != '/'
  {
    forall j | k <= j < |path|
      ensures path[j] != '/'
    {
      assert path[j] == path[k..][j - k];
    }
  }

  lemma TailIsBase(path: string, k: nat)
    requires k <= |path| && Boundary(path, k) && Go.NoSlash(path[k..])
    ensures path[k..] == Base(path)
  {
    var m := |path| - |Base(path)|;
    NoSlashFrom(path, k);
    NoSlashFrom(path, m);
    assert m == k;
  }

  /** Some tail of the path at a boundary is in the language. */
  ghost predicate TailIn(lang: iset<string>, path: string) {
    exists k :: 0 <= k <= |path| && Boundary(path, k) && path[k..] in lang
  }

  lemma TailInBare(lang: iset<string>, path: string)
    requires forall s :: s in lang ==> Go.NoSlash(s)
    ensures TailIn(lang, path) <==> Base(path) in lang
  {
    if TailIn(lang, path) {
      var k :| 0 <= k <= |path| && Boundary(path, k) && path[k..] in lang;
      TailIsBase(path, k);
    }
    var m := |path| - |Base(path)|;
    assert Boundary(path, m) && path[m..] == Base(path);
  }

  /** The glob text emitted for a body and the kind of rule. */
  function Placed(body: string, allowSlash: bool): string {
    if allowSlash then "/" + body else if '/' in body then "**/" + body else body
  }

  lemma PlacedHits(body: string, allowSlash: bool, path: string)
    requires !allowSlash ==> forall s :: s in Rg.Language(body) ==> Go.NoSlash(s)
    ensures RgHits(Placed(body, allowSlash), path) <==>
            (if allowSlash then path else Base(path)) in Rg.Language(body)
  {
    if allowSlash {
      assert ("/" + body)[1..] == body;
    } else {
      TailInBare(Rg.Language(body), path);
      if '/' in body {
        assert ("**/" + body)[3..] == body;
      } else {
        assert "**/"[2] == '/';
      }
    }
  }

  /* ---- The translation of a rule ---- */

  /** rgSafeGlob: a malformed pattern stands for its own text only. */
  method RgSafeGlob(pat: string, allowSlash: bool) returns (glob: string, satisfiable: bool)
    requires allowSlash || Go.NoSlash(pat)
    ensures satisfiable ==> AppendSafe(glob)
    ensures !Go.WellFormed(pat) ==>
              satisfiable && ('/' in glob <==> '/' in pat) && forall s :: Rg.GlobMatches(glob, s) <==> s == pat
    ensures Go.WellFormed(pat) && satisfiable ==> Renders(glob, HeardAll(Go.Parse(pat).value), allowSlash)
    ensures Go.WellFormed(pat) && !satisfiable ==>
              forall s :: allowSlash || Go.NoSlash(s) ==> !Go.Matches(HeardAll(Go.Parse(pat).value), s)
  {
    var valid := IsValidGoPattern(pat);
    if !valid {
      glob := EscapeRgLiteral(pat);
      glob := FixRgTrailingEscape(glob);
      return glob, true;
    }
    glob, satisfiable := TranslateRgGlob(pat, allowSlash);
  }

  /** What the globs of a rule stand for: the pattern as the class parser hears
      it, and the rule's own text when the pattern does not match it. */
  predicate HeardAs(pat: string, s: string) {
    if !Go.WellFormed(pat) then s == pat
    else Go.Matches(HeardAll(Go.Parse(pat).value), s) || (s == pat && !Search.FileMatch(pat, pat))
  }

  lemma BaseIsRelative(rel: string)
    requires Relative(rel)
    ensures Relative(Base(rel))
  {
  }

  lemma WildHits(r: Rule, ts: seq<Go.Term>, glob: string, rel: string)
    requires Renders(glob, ts, AllowsSlash(r)) && Relative(rel)
    ensures RgHits(Placed(glob, AllowsSlash(r)), rel) <==> Go.Matches(ts, Target(r, rel))
  {
    hide Rg.GlobMatches, Go.Matches;
    BaseIsRelative(rel);
    InLanguage(glob, ts, AllowsSlash(r), Target(r, rel));
    if !AllowsSlash(r) {
      BareLanguage(glob, ts);
    }
    PlacedHits(glob, AllowsSlash(r), rel);
  }

  lemma BareLanguage(glob: string, ts: seq<Go.Term>)
    requires Renders(glob, ts, false)
    ensures forall s :: s in Rg.Language(glob) ==> Go.NoSlash(s)
  {
    forall s | s in Rg.Language(glob)
      ensures Go.NoSlash(s)
    {
      assert Rg.GlobMatches(glob, s);
    }
  }

  lemma InLanguage(glob: string, ts: seq<Go.Term>, allowSlash: bool, s: string)
    requires Renders(glob, ts, allowSlash) && Relative(s) && (allowSlash || Go.NoSlash(s))
    ensures s in Rg.Language(glob) <==> Go.Matches(ts, s)
  {
    assert s in Rg.Language(glob) <==> Rg.GlobMatches(glob, s);
  }

  lemma LiteralHits(r: Rule, glob: string, rel: string)
    requires forall s :: Rg.GlobMatches(glob, s) <==> s == r.pat
    ensures RgHits(Placed(glob, AllowsSlash(r)), rel) <==> Target(r, rel) == r.pat
  {
    PlacedHits(glob, AllowsSlash(r), rel);
    assert Rg.GlobMatches(glob, Target(r, rel)) <==> Target(r, rel) in Rg.Language(glob);
  }

  lemma PlacedSafe(glob: string, allowSlash: bool)
    requires AppendSafe(glob)
    ensures AppendSafe(Placed(glob, allowSlash))
  {
    SeparatorsLex();
    Rg.LexConcat("/", glob);
    C.LexOne("*", Rg.One(Rg.Star));
    Rg.LexConcat("*", "*");
    Rg.LexConcat("**", "/");
    assert "*" + "*" == "**" && "**" + "/" == "**/";
    Rg.LexConcat("**/", glob);
    Appendable(Placed(glob, allowSlash));
  }

  /** RgExcludeGlobs: every glob may be extended by the caller, and together
      they hit exactly the directories the rule is heard to name. */
  method RgExcludeGlobs(raw: string) returns (globs: seq<string>)
    ensures NormalizeExcludeRule(raw).None? ==> globs == []
    ensures forall g :: g in globs ==> AppendSafe(g)
    ensures NormalizeExcludeRule(raw).Some? ==>
              var r := NormalizeExcludeRule(raw).value;
              forall rel :: Relative(rel) ==>
                (SomeHit(globs, rel) <==> HeardAs(r.pat, if r.anchored || '/' in r.pat then rel else Base(rel)))
  {
    hide Go.Matches, Go.Parse, RgHits, AppendSafe, NormalizeExcludeRule;
    var rule := NormalizeExcludeRule(raw);
    if rule.None? {
      return [];
    }
    var r := rule.value;
    var wild := WildGlobs(r);
    var literal := LiteralGlobs(r);
    globs := wild;
    if |literal| > 0 && (|globs| == 0 || globs[0] != literal[0]) {
      globs := globs + literal;
    }
    assert forall g :: g in globs <==> g in wild || g in literal;
    forall rel | Relative(rel)
      ensures SomeHit(globs, rel) <==> HeardAs(r.pat, Target(r, rel))
    {
      HitsAdd(globs, wild, literal, rel);
    }
  }

  lemma HitsAdd(all: seq<string>, a: seq<string>, b: seq<string>, path: string)
    requires forall g :: g in all <==> g in a || g in b
    ensures SomeHit(all, path) <==> SomeHit(a, path) || SomeHit(b, path)
  {
    if SomeHit(a, path) {
      var g :| g in a && RgHits(g, path);
      assert g in all;
    }
    if SomeHit(b, path) {
      var g :| g in b && RgHits(g, path);
      assert g in all;
    }
  }

  /** The wildcard translation, if the pattern can match anything. */
  method WildGlobs(r: Rule) returns (globs: seq<string>)
    ensures |globs| <= 1 && forall g :: g in globs ==> AppendSafe(g)
    ensures forall rel :: Relative(rel) ==>
              (SomeHit(globs, rel) <==>
               if Go.WellFormed(r.pat) then Go.Matches(HeardAll(Go.Parse(r.pat).value), Target(r, rel))
               else Target(r, rel) == r.pat)
  {
    hide Go.Matches, Go.Parse, Rg.Lex, Rg.Matches, RgHits;
    var g, satisfiable := RgSafeGlob(r.pat, AllowsSlash(r));
    if !satisfiable {
      return [];
    }
    PlacedSafe(g, AllowsSlash(r));
    if !AllowsSlash(r) && '/' in g {
      globs := ["**/" + g];
    } else if AllowsSlash(r) {
      globs := ["/" + g];
    } else {
      globs := [g];
    }
    forall rel | Relative(rel)
      ensures SomeHit(globs, rel) <==> RgHits(Placed(g, AllowsSlash(r)), rel)
      ensures RgHits(Placed(g, AllowsSlash(r)), rel) <==>
              if Go.WellFormed(r.pat) then Go.Matches(HeardAll(Go.Parse(r.pat).value), Target(r, rel))
              else Target(r, rel) == r.pat
    {
      assert globs == [Placed(g, AllowsSlash(r))];
      if Go.WellFormed(r.pat) {
        WildHits(r, HeardAll(Go.Parse(r.pat).value), g, rel);
      } else {
        LiteralHits(r, g, rel);
      }
    }
  }

  /** The literal translation, when the rule's own text does not match it. */
  method LiteralGlobs(r: Rule) returns (globs: seq<string>)
    ensures |globs| <= 1 && forall g :: g in globs ==> AppendSafe(g)
    ensures forall rel :: SomeHit(globs, rel) <==>
              Go.WellFormed(r.pat) && !Search.FileMatch(r.pat, r.pat) && Target(r, rel) == r.pat
  {
    var valid := IsValidGoPattern(r.pat);
    if !valid || Search.FileMatch(r.pat, r.pat) {
      return [];
    }
    var escaped := EscapeRgLiteral(r.pat);
    var lit := FixRgTrailingEscape(escaped);
    PlacedSafe(lit, AllowsSlash(r));
    globs := [if AllowsSlash(r) then "/" + lit else lit];
    forall rel: string
      ensures SomeHit(globs, rel) <==> Target(r, rel) == r.pat
    {
      assert globs == [Placed(lit, AllowsSlash(r))];
      LiteralHits(r, lit, rel);
    }
  }
}
