/** When a list of Go terms and a list of rg tokens stand for the same names. */
module GlobAgreement {
  import Go = GoPattern
  import Rg = RgGlob
  import C = RgClass

  /* ---- Go terms ---- */

  /** The term without the members the class parser drops. */
  function Heard(t: Go.Term): Go.Term {
    if t.Class? then Go.Class(t.negated, C.Kept(t.spans)) else t
  }

  function HeardAll(ts: seq<Go.Term>): (r: seq<Go.Term>)
    ensures |r| == |ts| && forall k :: 0 <= k < |ts| ==> r[k] == Heard(ts[k])
  {
    seq(|ts|, k requires 0 <= k < |ts| => Heard(ts[k]))
  }

  /** Runs of stars folded to one. */
  function Squash(ts: seq<Go.Term>): seq<Go.Term> {
    if ts == [] then []
    else
      var front, last := Squash(ts[..|ts| - 1]), ts[|ts| - 1];
      if last.Star? && front != [] && front[|front| - 1].Star? then front else front + [last]
  }

  lemma StarIntro(ts: seq<Go.Term>, p: string, s: string)
    requires ts != [] && ts[0].Star? && Go.NoSlash(p) && Go.Matches(ts[1..], s)
    ensures Go.Matches(ts, p + s)
  {
    assert (p + s)[..|p|] == p && (p + s)[|p|..] == s;
    assert Go.StarTakes(ts[1..], p + s, |p|);
  }

  lemma StarElim(ts: seq<Go.Term>, s: string) returns (k: nat)
    requires ts != [] && ts[0].Star? && Go.Matches(ts, s)
    ensures k <= |s| && Go.NoSlash(s[..k]) && Go.Matches(ts[1..], s[k..])
  {
    k :| 0 <= k <= |s| && Go.StarTakes(ts[1..], s, k);
  }

  lemma {:induction false} MatchesJoin(a: seq<Go.Term>, b: seq<Go.Term>, x: string, y: string)
    requires Go.Matches(a, x) && Go.Matches(b, y)
    ensures Go.Matches(a + b, x + y)
    decreases |a|
  {
    if a == [] {
      assert a + b == b && x + y == y;
    } else {
      assert (a + b)[1..] == a[1..] + b;
      if a[0].Star? {
        var k := StarElim(a, x);
        MatchesJoin(a[1..], b, x[k..], y);
        StarIntro(a + b, x[..k], x[k..] + y);
        assert x + y == x[..k] + (x[k..] + y);
      } else {
        MatchesJoin(a[1..], b, x[1..], y);
        assert (x + y)[1..] == x[1..] + y;
      }
    }
  }

  lemma {:induction false} MatchesSplit(a: seq<Go.Term>, b: seq<Go.Term>, s: string) returns (k: nat)
    requires Go.Matches(a + b, s)
    ensures k <= |s| && Go.Matches(a, s[..k]) && Go.Matches(b, s[k..])
    decreases |a|
  {
    if a == [] {
      assert a + b == b && s[0..] == s;
      k := 0;
    } else {
      assert (a + b)[1..] == a[1..] + b;
      if a[0].Star? {
        var m := StarElim(a + b, s);
        var j := MatchesSplit(a[1..], b, s[m..]);
        k := m + j;
        StarIntro(a, s[..m], s[m..][..j]);
        assert s[..k] == s[..m] + s[m..][..j] && s[m..][j..] == s[k..];
      } else {
        var j := MatchesSplit(a[1..], b, s[1..]);
        k := 1 + j;
        assert s[..k][1..] == s[1..][..j] && s[1..][j..] == s[k..];
      }
    }
  }

  lemma {:induction false} DeadTerm(ts: seq<Go.Term>, k: nat, s: string)
    requires k < |ts| && !ts[k].Star?
    requires forall c :: c in s ==> !Go.Accepts(ts[k], c)
    ensures !Go.Matches(ts, s)
    decreases k
  {
    if Go.Matches(ts, s) && k > 0 {
      if ts[0].Star? {
        var m := StarElim(ts, s);
        DeadTerm(ts[1..], k - 1, s[m..]);
      } else {
        DeadTerm(ts[1..], k - 1, s[1..]);
      }
    }
  }

  lemma OneStar(s: string)
    ensures Go.Matches([Go.Star], s) <==> Go.NoSlash(s)
  {
    assert [Go.Star][1..] == [];
    if Go.NoSlash(s) {
      StarIntro([Go.Star], s, "");
      assert s + "" == s;
    }
    if Go.Matches([Go.Star], s) {
      var k := StarElim([Go.Star], s);
      assert s[..k] == s;
    }
  }

  /** A second star adds nothing to a first. */
  lemma StarTwice(f: seq<Go.Term>, s: string)
    ensures Go.Matches(f + [Go.Star] + [Go.Star], s) <==> Go.Matches(f + [Go.Star], s)
  {
    var a := f + [Go.Star];
    if Go.Matches(a + [Go.Star], s) {
      var k := MatchesSplit(a, [Go.Star], s);
      var m := MatchesSplit(f, [Go.Star], s[..k]);
      OneStar(s[k..]);
      OneStar(s[..k][m..]);
      var tail := s[..k][m..] + s[k..];
      OneStar(tail);
      MatchesJoin(f, [Go.Star], s[..k][..m], tail);
      assert s == s[..k][..m] + tail;
    }
    if Go.Matches(a, s) {
      OneStar("");
      MatchesJoin(a, [Go.Star], s, "");
      assert s + "" == s;
    }
  }

  lemma FrontReplaced(f: seq<Go.Term>, q: seq<Go.Term>, b: seq<Go.Term>, s: string)
    requires forall k :: 0 <= k <= |s| && Go.Matches(f, s[..k]) ==> Go.Matches(q, s[..k])
    requires Go.Matches(f + b, s)
    ensures Go.Matches(q + b, s)
  {
    var k := MatchesSplit(f, b, s);
    MatchesJoin(q, b, s[..k], s[k..]);
    assert s == s[..k] + s[k..];
  }

  lemma {:induction false} SquashKeepsMeaning(ts: seq<Go.Term>, s: string)
    ensures Go.Matches(Squash(ts), s) <==> Go.Matches(ts, s)
  {
    if ts != [] {
      var front, last := ts[..|ts| - 1], ts[|ts| - 1];
      var q := Squash(front);
      forall k | 0 <= k <= |s|
        ensures Go.Matches(q, s[..k]) <==> Go.Matches(front, s[..k])
      {
        SquashKeepsMeaning(front, s[..k]);
      }
      assert ts == front + [last];
      if Go.Matches(ts, s) {
        FrontReplaced(front, q, [last], s);
      }
      if Go.Matches(q + [last], s) {
        FrontReplaced(q, front, [last], s);
      }
      if last.Star? && q != [] && q[|q| - 1].Star? {
        assert q == q[..|q| - 1] + [Go.Star];
        StarTwice(q[..|q| - 1], s);
      }
    }
  }

  /* ---- Term against token ---- */

  /** Same star, or the same characters other than '/'; on '/' the token is
      never more generous than the term, and never generous for a bare name. */
  ghost predicate SlotAgrees(g: Go.Term, r: Rg.Token, allowSlash: bool) {
    if g.Star? then Rg.IsStar(r)
    else
      && !Rg.IsStar(r)
      && Rg.IsSingle(r)
      && (forall c :: c != '/' ==> (Rg.Accepts(r, c) <==> Go.Accepts(g, c)))
      && (Rg.Accepts(r, '/') ==> allowSlash && Go.Accepts(g, '/'))
  }

  ghost predicate SlotsAgree(gs: seq<Go.Term>, rs: seq<Rg.Token>, allowSlash: bool) {
    |gs| == |rs| && forall k :: 0 <= k < |gs| ==> SlotAgrees(gs[k], rs[k], allowSlash)
  }

  /** A term that stands for '/' while its token does not has the edge of the
      pattern or a literal '/' beside it. endsHere says that the text behind
      the last term is the end of the pattern or a '/'. */
  ghost predicate SlashAtEdge(gs: seq<Go.Term>, rs: seq<Rg.Token>, k: nat, endsHere: bool)
    requires k < |gs| == |rs| && !gs[k].Star? && Rg.IsSingle(rs[k])
  {
    Go.Accepts(gs[k], '/') ==>
      || Rg.Accepts(rs[k], '/')
      || k == 0 || gs[k - 1] == Go.Lit('/')
      || (if k + 1 < |gs| then gs[k + 1] == Go.Lit('/') else endsHere)
  }

  ghost predicate SlashesAtEdges(gs: seq<Go.Term>, rs: seq<Rg.Token>, endsHere: bool)
    requires SlotsAgree(gs, rs, true)
  {
    forall k :: 0 <= k < |gs| && !gs[k].Star? ==> SlashAtEdge(gs, rs, k, endsHere)
  }

  ghost predicate ListsAgree(gs: seq<Go.Term>, rs: seq<Rg.Token>, allowSlash: bool, endsHere: bool) {
    && SlotsAgree(gs, rs, allowSlash)
    && (allowSlash ==> SlashesAtEdges(gs, rs, endsHere))
  }

  lemma {:induction false} TokensImplyTerms(gs: seq<Go.Term>, rs: seq<Rg.Token>, allowSlash: bool, s: string)
    requires SlotsAgree(gs, rs, allowSlash)
    requires Rg.Matches(rs, s)
    ensures Go.Matches(gs, s)
    ensures allowSlash || Go.NoSlash(s)
    decreases |gs|
  {
    if gs != [] {
      assert SlotAgrees(gs[0], rs[0], allowSlash);
      if gs[0].Star? {
        var k := Rg.StarElim(rs, s);
        TokensImplyTerms(gs[1..], rs[1..], allowSlash, s[k..]);
        StarIntro(gs, s[..k], s[k..]);
        assert s == s[..k] + s[k..];
      } else {
        Rg.MatchesSingle(rs, s);
        TokensImplyTerms(gs[1..], rs[1..], allowSlash, s[1..]);
        assert s == [s[0]] + s[1..];
      }
    }
  }

  /** A name or a relative path in normal form, or a tail of one. */
  predicate Tidy(s: string) {
    && (s != "" ==> s[|s| - 1] != '/')
    && forall k :: 0 < k < |s| ==> !(s[k - 1] == '/' && s[k] == '/')
  }

  lemma TidyTail(s: string, k: nat)
    requires Tidy(s) && k <= |s|
    ensures Tidy(s[k..])
  {
  }

  lemma {:induction false} TermsImplyTokens(gs: seq<Go.Term>, rs: seq<Rg.Token>, allowSlash: bool, k: nat, s: string)
    requires SlotsAgree(gs, rs, allowSlash) && k <= |gs|
    requires Tidy(s) && Go.Matches(gs[k..], s)
    requires Go.NoSlash(s) || (SlotsAgree(gs, rs, true) && SlashesAtEdges(gs, rs, true))
    requires (k == 0 || gs[k - 1] == Go.Lit('/')) && s != "" ==> s[0] != '/'
    ensures Rg.Matches(rs[k..], s)
    decreases |gs| - k
  {
    if k < |gs| {
      var g, r := gs[k], rs[k];
      assert SlotAgrees(g, r, allowSlash);
      assert gs[k..][1..] == gs[k + 1..] && rs[k..][1..] == rs[k + 1..];
      if g.Star? {
        var m := StarElim(gs[k..], s);
        TidyTail(s, m);
        TermsImplyTokens(gs, rs, allowSlash, k + 1, s[m..]);
        Rg.StarIntro(rs[k..], s[..m], s[m..]);
        assert s == s[..m] + s[m..];
      } else {
        TidyTail(s, 1);
        if s[0] == '/' {
          assert SlashAtEdge(gs, rs, k, true);
        }
        TermsImplyTokens(gs, rs, allowSlash, k + 1, s[1..]);
        Rg.MatchesSingle(rs[k..], s);
      }
    }
  }

  /** Matching lists match the same bare names, and for a path rule the same
      relative paths; without slashes in the rule, nothing with a '/' matches. */
  lemma ListsMatchAlike(gs: seq<Go.Term>, rs: seq<Rg.Token>, allowSlash: bool, s: string)
    requires ListsAgree(gs, rs, allowSlash, true)
    ensures Rg.Matches(rs, s) ==> Go.Matches(gs, s) && (allowSlash || Go.NoSlash(s))
    ensures Tidy(s) && (s != "" ==> s[0] != '/') && (allowSlash || Go.NoSlash(s)) ==>
              (Rg.Matches(rs, s) <==> Go.Matches(gs, s))
  {
    if Rg.Matches(rs, s) {
      TokensImplyTerms(gs, rs, allowSlash, s);
    }
    if Go.Matches(gs, s) && Tidy(s) && (s != "" ==> s[0] != '/') && (allowSlash || Go.NoSlash(s)) {
      TermsImplyTokens(gs, rs, allowSlash, 0, s);
      assert gs[0..] == gs && rs[0..] == rs;
    }
  }
}
