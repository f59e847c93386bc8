/** The contract between the walker and ripgrep: one rule, the same pruned
    directories. */
module RuleAgreement {
  import opened Wrappers
  import Go = GoPattern
  import Search = GoSearch
  import C = RgClass
  import Text = Names
  import opened GlobAgreement
  import opened LostMembers
  import opened RgTranslate
  import opened ExcludeRules
  import opened PlainRules

  /** The pattern keeps its directory names through the translation: it is read
      literally, or no class loses a member, or neither reading names anything. */
  ghost predicate KeepsItsNames(pat: string) {
    Go.WellFormed(pat) ==>
      var ts := Go.Parse(pat).value;
      LosesNothing(ts) || (Barren(ts) && Barren(HeardAll(ts)))
  }

  predicate KeepsItsMembers(pat: string) {
    Go.WellFormed(pat) ==> LosesNothing(Go.Parse(pat).value)
  }

  predicate Directory(rel: string) { Relative(rel) && rel != "" }

  lemma {:induction false} BaseOfName(s: string)
    requires Go.NoSlash(s)
    ensures Base(s) == s
  {
    if s != "" {
      assert s[..|s| - 1] + [s[|s| - 1]] == s;
      BaseOfName(s[..|s| - 1]);
    }
  }

  lemma NameIsRelative(s: string)
    requires Go.NoSlash(s)
    ensures Relative(s)
  {
  }

  /** The library's search finds whatever the pattern matches. */
  ghost predicate FindsItsPaths(pat: string) {
    Go.WellFormed(pat) ==> Search.Void(Go.Parse(pat).value) || !Search.SomeSlip(Go.Parse(pat).value)
  }

  /** The pattern as parsed, the pattern as heard and the library agree on s. */
  ghost predicate OneVerdict(pat: string, s: string)
    requires Go.WellFormed(pat)
  {
    var ts := Go.Parse(pat).value;
    (Go.Matches(HeardAll(ts), s) <==> Go.Matches(ts, s)) && (Search.Finds(ts, s) <==> Go.Matches(ts, s))
  }

  lemma HeardIsNamed(pat: string, s: string)
    requires Go.WellFormed(pat) ==> OneVerdict(pat, s) && OneVerdict(pat, pat)
    ensures HeardAs(pat, s) <==> Names(pat, s)
  {
    hide Go.Matches, Go.Parse, Search.Finds;
  }

  lemma FoundInNames(ts: seq<Go.Term>, s: string)
    requires Go.NoSlash(s)
    ensures Search.Finds(ts, s) <==> Go.Matches(ts, s)
  {
    hide Go.Matches, Search.Finds;
    if Search.Finds(ts, s) {
      Search.FoundIsMatch(ts, s);
    }
    if Go.Matches(ts, s) {
      Search.MatchIsFound(ts, s);
    }
  }

  /** A rule that keeps its members is heard to name at least what the walker
      names, whatever the search misses. */
  lemma NamedIsHeard(r: Rule, rel: string)
    requires KeepsItsMembers(r.pat) && WalkerNames(r, rel)
    ensures HeardAs(r.pat, Target(r, rel))
  {
    hide Go.Matches, Go.Parse, Search.Finds, LosesNothing;
    var s := Target(r, rel);
    if Go.WellFormed(r.pat) {
      var ts := Go.Parse(r.pat).value;
      LosslessMatches(ts, s);
      if Search.Finds(ts, s) {
        Search.FoundIsMatch(ts, s);
      }
    }
  }

  /** And at most that, for a bare rule and for a path rule the search is
      complete for. */
  lemma MembersKept(r: Rule, rel: string)
    requires KeepsItsMembers(r.pat) && (AllowsSlash(r) ==> FindsItsPaths(r.pat))
    ensures HeardAs(r.pat, Target(r, rel)) <==> WalkerNames(r, rel)
  {
    hide Go.Matches, Go.Parse, Search.Finds, LosesNothing, Search.SomeSlip;
    var s := Target(r, rel);
    if Go.WellFormed(r.pat) {
      var ts := Go.Parse(r.pat).value;
      LosslessMatches(ts, s);
      LosslessMatches(ts, r.pat);
      if AllowsSlash(r) {
        Search.FindsExactly(ts);
      } else {
        FoundInNames(ts, s);
        FoundInNames(ts, r.pat);
      }
    }
    HeardIsNamed(r.pat, s);
  }

  /** What is heard of a bare rule names the directories the walker names,
      exactly when the rule keeps its names. */
  lemma BareRuleExactly(r: Rule)
    requires !AllowsSlash(r)
    ensures (forall rel :: Directory(rel) ==> (HeardAs(r.pat, Target(r, rel)) <==> WalkerNames(r, rel)))
            <==> KeepsItsNames(r.pat)
  {
    hide Go.Matches, Go.Parse, Search.Finds, HeardAs, Loses, Barren;
    if Go.WellFormed(r.pat) {
      LossExactly(r.pat);
      FoundInNames(Go.Parse(r.pat).value, r.pat);
      if !KeepsItsNames(r.pat) {
        var ts := Go.Parse(r.pat).value;
        var lost :| 0 <= lost < |ts| && Loses(ts[lost]);
        var w := LossShows(r.pat, lost);
        BaseOfName(w);
        NameIsRelative(w);
        HeardElsewhere(r.pat, w);
        assert Directory(w) && Target(r, w) == w;
      }
    }
    if KeepsItsNames(r.pat) {
      forall rel | Directory(rel)
        ensures HeardAs(r.pat, Target(r, rel)) <==> WalkerNames(r, rel)
      {
        if Go.WellFormed(r.pat) {
          FoundInNames(Go.Parse(r.pat).value, Target(r, rel));
        }
        HeardIsNamed(r.pat, Target(r, rel));
      }
    }
  }

  lemma HeardElsewhere(pat: string, s: string)
    requires Go.WellFormed(pat) && s != pat && Go.NoSlash(s)
    ensures HeardAs(pat, s) <==> Go.Matches(HeardAll(Go.Parse(pat).value), s)
    ensures Names(pat, s) <==> Go.Matches(Go.Parse(pat).value, s)
  {
    hide Go.Matches, Go.Parse, Search.Finds;
    FoundInNames(Go.Parse(pat).value, s);
  }

  /** The rule `[U+FFFD]` is one that does not keep its names. */
  lemma ReplacementRuleDiffers()
    ensures NormalizeExcludeRule("[\U{FFFD}]") == Some(Rule("[\U{FFFD}]", false))
    ensures !KeepsItsNames("[\U{FFFD}]")
  {
    hide Text.TrimSpace;
    var pat := "[\U{FFFD}]";
    PlainRule(pat);
    var c := C.REPLACEMENT;
    var one := Go.Class(false, [Go.Span(c, c)]);
    assert pat[1..] == [c, ']'] && [c, ']'][1..] == "]" && "]"[1..] == "";
    assert Go.Items("]") == Some(([], ""));
    assert [Go.Span(c, c)] + [] == [Go.Span(c, c)] && [one] + [] == [one];
    assert Go.Item([c, ']']) == Some((Go.Span(c, c), "]"));
    assert Go.Items([c, ']']) == Some(([Go.Span(c, c)], ""));
    assert Go.FirstTerm(pat) == Some((one, ""));
    assert Go.Parse(pat) == Some([one]);
    assert C.Kept([Go.Span(c, c)]) == [] by { assert [Go.Span(c, c)][1..] == []; }
    assert one.spans[0] == Go.Span(c, c);
    assert Loses(one) && Go.Accepts(one, c);
    assert Go.Parse(pat).value[0] == one && !LosesNothing([one]);
    assert !Barren([one]);
  }

  const SLIPPING := [Go.Star, Go.Lit('a'), Go.Class(false, [Go.Span('b', 'b'), Go.Span('/', '/')]),
                    Go.Star, Go.Lit('c')]

  lemma EmptyParses()
    ensures Go.Parse("") == Some([])
  {
  }

  lemma ParseStep(s: string, k: nat)
    requires k < |SLIPPING| && s != "" && Go.FirstTerm(s).Some? && Go.FirstTerm(s).value.0 == SLIPPING[k]
    requires Go.Parse(Go.FirstTerm(s).value.1) == Some(SLIPPING[k + 1..])
    ensures Go.Parse(s) == Some(SLIPPING[k..])
  {
    assert [SLIPPING[k]] + SLIPPING[k + 1..] == SLIPPING[k..];
  }

  lemma MatchStep(ts: seq<Go.Term>, s: string)
    requires ts != [] && !ts[0].Star? && s != "" && Go.Accepts(ts[0], s[0]) && Go.Matches(ts[1..], s[1..])
    ensures Go.Matches(ts, s)
  {
  }

  lemma SlippingClassParses()
    ensures Go.FirstTerm("[b/]*c") == Some((SLIPPING[2], "*c"))
  {
    var b, slash := Go.Span('b', 'b'), Go.Span('/', '/');
    assert "[b/]*c"[1..] == "b/]*c" && "b/]*c"[1..] == "/]*c" && "/]*c"[1..] == "]*c" && "]*c"[1..] == "*c";
    assert Go.Items("]*c") == Some(([], "*c"));
    assert Go.Items("/]*c") == Some(([slash], "*c")) by { assert [slash] + [] == [slash]; }
    assert Go.Items("b/]*c") == Some(([b, slash], "*c")) by { assert [b] + [slash] == [b, slash]; }
  }

  lemma SlippingParses()
    ensures Go.Parse("*a[b/]*c") == Some(SLIPPING)
  {
    hide Go.Parse, Go.ClassTerm;
    EmptyParses();
    SlippingClassParses();
    assert SLIPPING[5..] == [];
    assert "c"[1..] == "" && "*c"[1..] == "c" && "a[b/]*c"[1..] == "[b/]*c" && "*a[b/]*c"[1..] == "a[b/]*c";
    ParseStep("c", 4);
    ParseStep("*c", 3);
    ParseStep("[b/]*c", 2);
    ParseStep("a[b/]*c", 1);
    ParseStep("*a[b/]*c", 0);
  }

  lemma SlippingMatches()
    ensures Go.Matches(SLIPPING, "aba/c")
  {
    hide Go.Matches;
    assert SLIPPING[2].spans[1] == Go.Span('/', '/');
    assert "aba/c" == "ab" + "a/c" && "a/c"[1..] == "/c" && "/c"[1..] == "c" && "c"[1..] == "";
    Search.EmptyMatches("");
    assert SLIPPING[5..] == [];
    MatchStep(SLIPPING[4..], "c");
    StarIntro(SLIPPING[3..], "", "c");
    assert "" + "c" == "c";
    MatchStep(SLIPPING[2..], "/c");
    MatchStep(SLIPPING[1..], "a/c");
    StarIntro(SLIPPING, "ab", "a/c");
  }

  lemma SlippingCut()
    ensures Search.FirstCut(SLIPPING) == Search.Cut(true, SLIPPING[1..3], SLIPPING[3..])
    ensures Search.FirstCut(SLIPPING[3..]) == Search.Cut(true, SLIPPING[4..], [])
  {
    assert Search.AfterStars(SLIPPING[1..]) == SLIPPING[1..];
    assert Search.ChunkLength(SLIPPING[3..]) == 0;
    assert Search.ChunkLength(SLIPPING[2..]) == 1;
    assert Search.ChunkLength(SLIPPING[1..]) == 2;
    assert Search.AfterStars(SLIPPING[4..]) == SLIPPING[4..];
    assert Search.ChunkLength([]) == 0;
    assert SLIPPING[4..][1..] == [];
    assert Search.ChunkLength(SLIPPING[4..]) == 1;
  }

  lemma SlippingMisses()
    ensures !Search.Finds(SLIPPING, "aba/c")
  {
    hide Search.Finds, Search.FirstCut, Search.AfterStars, Search.ChunkLength;
    SlippingCut();
    var first := SLIPPING[1..3];
    assert SLIPPING[2].spans[0] == Go.Span('b', 'b');
    assert Go.Accepts(first[0], 'a') && Go.Accepts(first[1], 'b');
    assert Search.Here(first, "aba/c", false);
    assert Search.Search(first, "aba/c", false, true) == Some(0);
    assert "aba/c"[2..] == "a/c" && "a/c"[1..] == "/c";
    assert Search.Search(SLIPPING[4..], "/c", true, true) == None;
    assert Search.Search(SLIPPING[4..], "a/c", true, true) == None;
    Search.FindsCut(SLIPPING, "aba/c");
    Search.FindsCut(SLIPPING[3..], "a/c");
  }

  /** A rule with a class between its stars that holds '/': ripgrep prunes
      aba/c, the walker stops looking after the first fit and goes in. */
  lemma SlippingRuleDiffers()
    ensures var r := Rule("*a[b/]*c", false);
            && NormalizeExcludeRule(r.pat) == Some(r) && KeepsItsMembers(r.pat) && Directory("aba/c")
            && HeardAs(r.pat, Target(r, "aba/c")) && !WalkerNames(r, "aba/c")
  {
    hide Text.TrimSpace, Go.Matches, Go.Parse, Search.Finds;
    var pat := "*a[b/]*c";
    assert pat[4] == '/';
    PlainRule(pat);
    SlippingParses();
    SlippingMatches();
    SlippingMisses();
    LosslessMatches(SLIPPING, "aba/c");
  }

  /* ---- Whole subtrees ---- */

  /** rel[..k] is the directory itself or one above it. */
  predicate Ancestor(rel: string, k: nat) { 0 < k <= |rel| && (k == |rel| || rel[k] == '/') }

  /** The walk never enters rel, because it skips rel or something above it. */
  ghost predicate WalkerPrunes(r: Rule, rel: string) {
    exists k :: 0 <= k <= |rel| && Ancestor(rel, k) && WalkerSkips(r, rel[..k])
  }

  /** The caller passes each glob for the directory and for its subtree. */
  ghost predicate RgPrunes(globs: seq<string>, rel: string) {
    exists k :: 0 <= k <= |rel| && Ancestor(rel, k) && SomeHit(globs, rel[..k])
  }

  lemma AncestorIsDirectory(rel: string, k: nat)
    requires Directory(rel) && Ancestor(rel, k)
    ensures Directory(rel[..k])
  {
  }

  /** The walker's prefix test adds nothing to the test of the directories
      above: the directory it finds is one of them. */
  lemma PrefixTestIsAncestor(r: Rule, rel: string)
    requires r.pat != ""
    ensures WalkerPrunes(r, rel) <==>
            exists k :: 0 <= k <= |rel| && Ancestor(rel, k) && WalkerNames(r, rel[..k])
  {
    hide WalkerNames;
    if WalkerPrunes(r, rel) {
      var k :| 0 <= k <= |rel| && Ancestor(rel, k) && WalkerSkips(r, rel[..k]);
      if !WalkerNames(r, rel[..k]) {
        var m := |r.pat|;
        assert rel[m] == rel[..k][m] == (r.pat + "/")[m];
        assert rel[..m] == r.pat;
        assert Ancestor(rel, m) && WalkerNames(r, rel[..m]) by { OwnTextIsNamed(r); }
      }
    }
  }

  lemma OwnTextIsNamed(r: Rule)
    ensures AllowsSlash(r) ==> WalkerNames(r, r.pat)
  {
  }

  lemma PrunesAlike(r: Rule, globs: seq<string>, rel: string)
    requires r.pat != "" && Directory(rel)
    requires forall d :: Directory(d) ==> (SomeHit(globs, d) <==> WalkerNames(r, d))
    ensures RgPrunes(globs, rel) <==> WalkerPrunes(r, rel)
  {
    hide WalkerNames, SomeHit, WalkerSkips;
    PrefixTestIsAncestor(r, rel);
    forall k | 0 <= k <= |rel| && Ancestor(rel, k)
      ensures SomeHit(globs, rel[..k]) <==> WalkerNames(r, rel[..k])
    {
      AncestorIsDirectory(rel, k);
    }
  }

  lemma PrunedByRg(r: Rule, globs: seq<string>, rel: string)
    requires r.pat != "" && Directory(rel) && KeepsItsMembers(r.pat) && WalkerPrunes(r, rel)
    requires forall d :: Relative(d) ==> (SomeHit(globs, d) <==> HeardAs(r.pat, Target(r, d)))
    ensures RgPrunes(globs, rel)
  {
    hide WalkerNames, SomeHit, WalkerSkips, HeardAs, KeepsItsMembers;
    PrefixTestIsAncestor(r, rel);
    var k :| 0 <= k <= |rel| && Ancestor(rel, k) && WalkerNames(r, rel[..k]);
    AncestorIsDirectory(rel, k);
    NamedIsHeard(r, rel[..k]);
  }

  /** One rule from its raw text to ripgrep's arguments: ripgrep can parse every
      glob. Of a rule that keeps its members it prunes what the walker prunes,
      and nothing else when the library finds all that the pattern matches. For
      a bare rule the two agree on every directory exactly when the rule keeps
      its names. */
  method ExcludeGlobs(raw: string) returns (globs: seq<string>)
    ensures forall g :: g in globs ==> AppendSafe(g)
    ensures NormalizeExcludeRule(raw).None? ==> globs == []
    ensures NormalizeExcludeRule(raw).Some? ==>
              var r := NormalizeExcludeRule(raw).value;
              && (KeepsItsMembers(r.pat) ==>
                    forall rel :: Directory(rel) && WalkerPrunes(r, rel) ==> RgPrunes(globs, rel))
              && (KeepsItsMembers(r.pat) && (r.anchored || '/' in r.pat ==> FindsItsPaths(r.pat)) ==>
                    forall rel :: Directory(rel) && RgPrunes(globs, rel) ==> WalkerPrunes(r, rel))
              && (!(r.anchored || '/' in r.pat) ==>
                    (KeepsItsNames(r.pat) <==>
                     forall rel :: Directory(rel) ==> (SomeHit(globs, rel) <==> WalkerNames(r, rel))))
    ensures forall lead, pat, rel :: Written(raw, lead, pat) && Plain(pat) && Directory(rel) ==>
              (SomeHit(globs, rel) <==> if lead != "" || '/' in pat then rel == pat else Base(rel) == pat)
  {
    hide Written, Plain;
    hide Go.Matches, Go.Parse, HeardAs, SomeHit, AppendSafe, WalkerNames;
    globs := RgExcludeGlobs(raw);
    ghost var rule := NormalizeExcludeRule(raw);
    if rule.Some? {
      ghost var r := rule.value;
      if !AllowsSlash(r) {
        BareRuleExactly(r);
      }
      if KeepsItsMembers(r.pat) {
        forall rel | Directory(rel) && WalkerPrunes(r, rel)
          ensures RgPrunes(globs, rel)
        {
          PrunedByRg(r, globs, rel);
        }
        if AllowsSlash(r) ==> FindsItsPaths(r.pat) {
          forall d | Directory(d)
            ensures SomeHit(globs, d) <==> WalkerNames(r, d)
          {
            MembersKept(r, d);
          }
          forall rel | Directory(rel)
            ensures RgPrunes(globs, rel) <==> WalkerPrunes(r, rel)
          {
            PrunesAlike(r, globs, rel);
          }
        }
      }
    }
    forall lead, pat, rel | Written(raw, lead, pat) && Plain(pat) && Directory(rel)
      ensures SomeHit(globs, rel) <==> if lead != "" || '/' in pat then rel == pat else Base(rel) == pat
    {
      WrittenRule(raw, lead, pat);
      PlainRuleNames(raw, lead, pat, rel);
    }
  }
}
