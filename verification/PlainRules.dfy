/** Rules as they are written: which text pins a rule to the root or to a path,
    and what a rule without metacharacters names. */
module PlainRules {
  import opened Wrappers
  import Go = GoPattern
  import Search = GoSearch
  import Text = Names
  import opened GlobAgreement
  import opened ExcludeRules

  /* ---- The written rule ---- */

  /** Nothing, slashes, or "./" and perhaps slashes. */
  predicate Lead(lead: string) {
    || lead == ""
    || (forall i :: 0 <= i < |lead| ==> lead[i] == '/')
    || (|lead| >= 2 && lead[0] == '.' && lead[1] == '/' && forall i :: 2 <= i < |lead| ==> lead[i] == '/')
  }

  predicate Pattern(lead: string, pat: string) {
    && pat != "" && pat != "." && pat != ".." && pat[0] != '/' && pat[|pat| - 1] != '/'
    && (lead == "" ==> !(|pat| >= 2 && pat[0] == '.' && pat[1] == '/'))
  }

  ghost predicate WrittenAs(raw: string, before: string, lead: string, pat: string, slashes: string, after: string) {
    && raw == before + (lead + pat + slashes) + after && Text.AllSpace(before) && Text.AllSpace(after)
    && Lead(lead) && Pattern(lead, pat) && (forall i :: 0 <= i < |slashes| ==> slashes[i] == '/')
    && !Text.IsSpace((lead + pat)[0]) && !Text.IsSpace((pat + slashes)[|pat + slashes| - 1])
  }

  /** The raw text is this pattern behind this lead, in any white space and
      before any slashes. */
  ghost predicate Written(raw: string, lead: string, pat: string) {
    exists before, slashes, after :: WrittenAs(raw, before, lead, pat, slashes, after)
  }

  lemma SlashRun(s: string, n: nat)
    requires n <= |s| && (forall k :: 0 <= k < n ==> s[k] == '/') && (n < |s| ==> s[n] != '/')
    ensures SlashesFrom(s, 0) == n
  {
    hide SlashesFrom;
  }

  lemma SlashTail(s: string, n: nat)
    requires 0 < n <= |s| && (forall k :: n <= k < |s| ==> s[k] == '/') && s[n - 1] != '/'
    ensures SlashesTo(s, |s|) == n
  {
    hide SlashesTo;
  }

  lemma BodyOfWritten(lead: string, pat: string, slashes: string)
    requires Lead(lead) && Pattern(lead, pat) && forall i :: 0 <= i < |slashes| ==> slashes[i] == '/'
    ensures var s := lead + pat + slashes;
            (HasAnchor(s) <==> lead != "") && Unanchored(s) == pat + slashes
  {
    hide SlashesFrom;
    var s, body := lead + pat + slashes, pat + slashes;
    assert s == lead + body && body[0] == pat[0];
    if lead == "" {
      assert s[0] == pat[0];
      assert |pat| >= 2 ==> s[1] == pat[1];
    } else if lead[0] == '/' {
      SlashRun(s, |lead|);
    } else {
      assert s[0] == lead[0] && s[1] == lead[1];
      SlashRun(s[2..], |lead| - 2);
    }
  }

  /** What is written is what is normalised: the pattern, anchored exactly when
      there is a lead. */
  lemma WrittenRule(raw: string, lead: string, pat: string)
    requires Written(raw, lead, pat)
    ensures NormalizeExcludeRule(raw) == Some(Rule(pat, lead != ""))
  {
    hide Lead, Pattern, Text.IsSpace, Text.AllSpace, Text.TrimSpace, HasAnchor, Unanchored;
    var before, slashes, after :| WrittenAs(raw, before, lead, pat, slashes, after);
    var s := lead + pat + slashes;
    assert pat != "" && !NamesNothing(pat) && pat[|pat| - 1] != '/' by { PatternNames(lead, pat); }
    assert s[0] == (lead + pat)[0] && s[|s| - 1] == (pat + slashes)[|pat + slashes| - 1];
    Text.TrimsTo(before, s, after);
    BodyOfWritten(lead, pat, slashes);
    SlashTail(pat + slashes, |pat|);
    assert (pat + slashes)[..|pat|] == pat;
  }

  lemma PatternNames(lead: string, pat: string)
    requires Pattern(lead, pat)
    ensures pat != "" && !NamesNothing(pat) && pat[|pat| - 1] != '/'
  {
  }

  /* ---- What it is matched against ---- */

  /** A rule with a lead or with a slash inside is compared with the path from
      the root, any other with the base name alone. */
  lemma WalkerReads(raw: string, lead: string, pat: string, rel: string)
    requires Written(raw, lead, pat)
    ensures NormalizeExcludeRule(raw) == Some(Rule(pat, lead != ""))
    ensures var s := if lead != "" || '/' in pat then rel else Base(rel);
            WalkerNames(Rule(pat, lead != ""), rel) <==> s == pat || Search.FileMatch(pat, s)
  {
    hide Search.FileMatch, Written, NormalizeExcludeRule, Base;
    WrittenRule(raw, lead, pat);
  }

  /* ---- Rules without metacharacters ---- */

  predicate Plain(pat: string) {
    '*' !in pat && '?' !in pat && '[' !in pat && '\\' !in pat
  }

  function Literals(pat: string): (ts: seq<Go.Term>)
    ensures |ts| == |pat| && forall i :: 0 <= i < |pat| ==> ts[i] == Go.Lit(pat[i])
  {
    seq(|pat|, i requires 0 <= i < |pat| => Go.Lit(pat[i]))
  }

  lemma {:induction false} PlainParses(pat: string)
    requires Plain(pat)
    ensures Go.Parse(pat) == Some(Literals(pat))
  {
    if pat == "" {
      assert Literals(pat) == [];
    } else {
      assert forall c :: c in pat[1..] ==> c in pat;
      assert pat[0] in pat;
      PlainParses(pat[1..]);
      assert Go.FirstTerm(pat) == Some((Go.Lit(pat[0]), pat[1..]));
      assert [Go.Lit(pat[0])] + Literals(pat[1..]) == Literals(pat);
    }
  }

  lemma {:induction false} LiteralsMatch(pat: string, s: string)
    ensures Go.Matches(Literals(pat), s) <==> s == pat
    decreases |pat|
  {
    if pat == "" {
      assert Literals(pat) == [];
    } else {
      assert Literals(pat)[1..] == Literals(pat[1..]);
      if s != "" {
        LiteralsMatch(pat[1..], s[1..]);
        assert s == [s[0]] + s[1..] && pat == [pat[0]] + pat[1..];
      }
    }
  }

  lemma LiteralsFound(pat: string, s: string)
    ensures Search.Finds(Literals(pat), s) <==> s == pat
  {
    hide Go.Matches, Search.Finds;
    var ts := Literals(pat);
    LiteralsMatch(pat, s);
    Search.PlainSlashesNeverSlip(ts);
    if Search.Finds(ts, s) {
      Search.FoundIsMatch(ts, s);
    }
    if s == pat {
      Search.MatchIsFound(ts, s);
    }
  }

  lemma PlainMeans(pat: string, s: string)
    requires Plain(pat)
    ensures Search.FileMatch(pat, s) <==> s == pat
    ensures HeardAs(pat, s) <==> s == pat
  {
    hide Go.Matches, Go.Parse, Search.Finds;
    PlainParses(pat);
    assert HeardAll(Literals(pat)) == Literals(pat);
    LiteralsMatch(pat, s);
    LiteralsFound(pat, s);
  }

  /** A plain rule with a lead or a slash inside names that one path from the
      root; any other plain rule names the directories of that name. */
  lemma PlainRuleNames(raw: string, lead: string, pat: string, rel: string)
    requires Written(raw, lead, pat) && Plain(pat)
    ensures NormalizeExcludeRule(raw) == Some(Rule(pat, lead != ""))
    ensures WalkerNames(Rule(pat, lead != ""), rel) <==>
              if lead != "" || '/' in pat then rel == pat else Base(rel) == pat
    ensures HeardAs(pat, Target(Rule(pat, lead != ""), rel)) <==>
              if lead != "" || '/' in pat then rel == pat else Base(rel) == pat
  {
    hide Search.FileMatch, Written, HeardAs, Plain, NormalizeExcludeRule, Base;
    WrittenRule(raw, lead, pat);
    WalkerReads(raw, lead, pat, rel);
    PlainMeans(pat, rel);
    PlainMeans(pat, Base(rel));
  }
}
