/** Go pattern text to rg glob text, token by token. */
module RgTranslate {
  import opened Wrappers
  import Go = GoPattern
  import Rg = RgGlob
  import C = RgClass
  import opened GlobAgreement

  // A glob the caller may append "/" or "/**" to.
  predicate AppendSafe(glob: string) {
    && Rg.WellFormed(glob)
    && (glob != "" ==> glob[|glob| - 1] != '\\')
    && Rg.WellFormed(glob + "/")
    && Rg.WellFormed(glob + "/**")
  }

  lemma SeparatorsLex()
    ensures Rg.Lex("/") == Some([Rg.One(Rg.Lit('/'))])
    ensures Rg.WellFormed("/**")
  {
    C.LexOne("/", Rg.One(Rg.Lit('/')));
    C.LexOne("*", Rg.One(Rg.Star));
    assert "**"[1..] == "*" && "/**"[1..] == "**";
    assert Rg.WellFormed("**");
  }

  lemma Appendable(glob: string)
    requires Rg.WellFormed(glob) && (glob != "" ==> glob[|glob| - 1] != '\\')
    ensures AppendSafe(glob)
  {
    SeparatorsLex();
    Rg.LexConcat(glob, "/");
    Rg.LexConcat(glob, "/**");
  }

  /* ---- Literal characters ---- */

  /** piece lexes to one token, the token is t, and t stands for c alone. */
  ghost predicate StandsFor(piece: string, t: Rg.Token, c: char) {
    && Rg.Lex(piece) == Some([t])
    && Rg.IsSingle(t)
    && (forall x :: Rg.Accepts(t, x) <==> x == c)
    && !C.Dangles(piece)
  }

  function PlainToken(c: char): Rg.Token { Rg.One(Rg.Lit(c)) }

  function BoxedToken(c: char, n: nat): Rg.Token
    requires n == 1 || n == 2
  {
    Rg.One(Rg.Class(false, if n == 1 then [Rg.Range(c, c)] else [Rg.Range(c, c), Rg.Range(c, c)]))
  }

  lemma PlainStandsFor(c: char)
    requires c !in {'\\', '*', '?', '[', '{', '}'}
    ensures StandsFor([c], PlainToken(c), c)
  {
    C.LexOne([c], PlainToken(c));
  }

  lemma EscapedStandsFor(c: char)
    requires c !in {'\\', '{', '}'}
    ensures StandsFor(['\\', c], PlainToken(c), c)
  {
    C.LexOne(['\\', c], PlainToken(c));
  }

  lemma BoxedStandsFor(c: char)
    requires c == '{' || c == '}'
    ensures StandsFor(['[', c, ']'], BoxedToken(c, 1), c)
  {
    C.ReadsNothing();
    C.ReadsChar("", [], c);
    assert "" + [c] == [c] && [] + [Rg.Range(c, c)] == [Rg.Range(c, c)];
    C.ReadsClose([c], [Rg.Range(c, c)]);
    C.LexBracket([c] + "]", false, [Rg.Range(c, c)]);
    assert "[" + ([c] + "]") == ['[', c, ']'];
    assert [Rg.Range(c, c)][0] == Rg.Range(c, c);
    assert forall x :: Rg.InRanges(x, [Rg.Range(c, c)]) <==> x == c;
  }

  lemma BoxedBackslash()
    ensures StandsFor("[\\\\]", BoxedToken('\\', 2), '\\')
  {
    var one := Rg.Range('\\', '\\');
    C.ReadsNothing();
    C.ReadsChar("", [], '\\');
    assert "" + ['\\'] == "\\" && [] + [one] == [one] && "\\" + ['\\'] == "\\\\" && [one] + [one] == [one, one];
    C.ReadsChar("\\", [one], '\\');
    C.ReadsClose("\\\\", [one, one]);
    C.LexBracket("\\\\" + "]", false, [one, one]);
    assert "[" + ("\\\\" + "]") == "[\\\\]";
    assert [one, one][0] == one;
    assert forall x :: Rg.InRanges(x, [one, one]) <==> x == '\\';
  }

  /** One character of escapeRgLiteral. */
  method LiteralPiece(c: char) returns (piece: string, ghost t: Rg.Token)
    ensures StandsFor(piece, t, c)
    ensures '/' in piece <==> c == '/'
  {
    match c {
      case '\\' =>
        BoxedBackslash();
        return "[\\\\]", BoxedToken('\\', 2);
      case '{' | '}' =>
        BoxedStandsFor(c);
        return ['[', c, ']'], BoxedToken(c, 1);
      case '*' | '?' | '[' | ']' =>
        EscapedStandsFor(c);
        return ['\\', c], PlainToken(c);
      case _ =>
        PlainStandsFor(c);
        return [c], PlainToken(c);
    }
  }

  lemma {:induction false} LiteralTokensMatch(ts: seq<Rg.Token>, s: string, x: string)
    requires |ts| == |s|
    requires forall k :: 0 <= k < |ts| ==> Rg.IsSingle(ts[k]) && forall c :: Rg.Accepts(ts[k], c) <==> c == s[k]
    ensures Rg.Matches(ts, x) <==> x == s
    decreases |ts|
  {
    if ts != [] {
      Rg.MatchesSingle(ts, x);
      if x != "" {
        LiteralTokensMatch(ts[1..], s[1..], x[1..]);
        assert x == [x[0]] + x[1..] && s == [s[0]] + s[1..];
      }
    }
  }

  /** escapeRgLiteral: a glob that matches s and nothing else. */
  method EscapeRgLiteral(s: string) returns (glob: string)
    ensures AppendSafe(glob)
    ensures forall x :: Rg.GlobMatches(glob, x) <==> x == s
    ensures '/' in glob <==> '/' in s
  {
    glob := "";
    ghost var ts: seq<Rg.Token> := [];
    for i := 0 to |s|
      invariant Rg.Lex(glob) == Some(ts) && |ts| == i
      invariant glob != "" ==> glob[|glob| - 1] != '\\'
      invariant forall k :: 0 <= k < i ==> Rg.IsSingle(ts[k]) && forall c :: Rg.Accepts(ts[k], c) <==> c == s[k]
      invariant '/' in glob <==> '/' in s[..i]
    {
      var piece, t := LiteralPiece(s[i]);
      Rg.LexConcat(glob, piece);
      glob, ts := glob + piece, ts + [t];
      assert s[..i + 1] == s[..i] + [s[i]];
    }
    assert s[..|s|] == s;
    Appendable(glob);
    forall x: string
      ensures Rg.GlobMatches(glob, x) <==> x == s
    {
      LiteralTokensMatch(ts, s, x);
    }
  }

  function TrailingBackslashes(s: string): nat {
    if s == "" || s[|s| - 1] != '\\' then 0 else 1 + TrailingBackslashes(s[..|s| - 1])
  }

  /** fixRgTrailingEscape: an even, non-empty run of trailing backslashes gets
      one more; no glob built here has such a run. */
  method FixRgTrailingEscape(g: string) returns (fixed: string)
    ensures TrailingBackslashes(fixed) == 0 || TrailingBackslashes(fixed) % 2 == 1
    ensures AppendSafe(g) ==> fixed == g
  {
    var n := TrailingBackslashes(g);
    if n > 0 && n % 2 == 0 {
      assert (g + "\\")[..|g|] == g;
      return g + "\\";
    }
    return g;
  }

  /* ---- One class ---- */

  lemma SlashClassAtom(rest: string)
    ensures Rg.LexAtom("[/]" + rest) == Some((Rg.Class(false, [Rg.Range('/', '/')]), rest))
  {
    hide C.Reads, Rg.ClassBody;
    C.ReadsNothing();
    C.ReadsChar("", [], '/');
    assert "" + ['/'] == "/" && [] + [Rg.Range('/', '/')] == [Rg.Range('/', '/')];
    C.ReadsClose("/", [Rg.Range('/', '/')]);
    assert "/" + "]" == "/]";
    Rg.ClassBodyExtends("/]", rest, [], true, false);
    assert ("[/]" + rest)[1..] == "/]" + rest && "" + rest == rest;
  }

  lemma LexAnyOrSlash()
    ensures Rg.Lex("{?,[/]}") == Some([AnyOrSlash()])
  {
    var any, slash := [Rg.AnyChar], [Rg.Class(false, [Rg.Range('/', '/')])];
    SlashClassAtom("}");
    assert "[/]" + "}" == "[/]}";
    assert "}"[1..] == "" && ",[/]}"[1..] == "[/]}" && "?,[/]}"[1..] == ",[/]}" && "{?,[/]}"[1..] == "?,[/]}";
    assert [] + any == any && [] + slash == slash && [] + [any] == [any] && [any] + [slash] == [any, slash];
    assert Rg.LexBranches("}", [any], slash) == Some(([any, slash], ""));
    assert Rg.LexBranches("[/]}", [any], []) == Some(([any, slash], ""));
    assert Rg.LexBranches(",[/]}", [], any) == Some(([any, slash], ""));
    assert Rg.LexBranches("?,[/]}", [], []) == Some(([any, slash], ""));
    C.LexOne("{?,[/]}", AnyOrSlash());
  }

  lemma AnyOrSlashAccepts(c: char)
    ensures Rg.IsSingle(AnyOrSlash()) && Rg.Accepts(AnyOrSlash(), c)
  {
    var t := AnyOrSlash();
    assert t.branches[1][0].ranges[0] == Rg.Range('/', '/');
    if c == '/' {
      assert Rg.AtomAccepts(t.branches[1][0], c);
    } else {
      assert Rg.AtomAccepts(t.branches[0][0], c);
    }
  }

  function AnyOrSlash(): Rg.Token {
    Rg.Alternates([[Rg.AnyChar], [Rg.Class(false, [Rg.Range('/', '/')])]])
  }

  /** The glob for an empty negated class, which Go lets stand for any
      character: `?`, or with '/' added where a path can have one there. */
  method AnyCharPiece(reachable: bool) returns (piece: string, ghost t: Rg.Token)
    ensures Rg.Lex(piece) == Some([t]) && !C.Dangles(piece)
    ensures Rg.IsSingle(t) && forall c :: Rg.Accepts(t, c) <==> c != '/' || reachable
  {
    if reachable {
      LexAnyOrSlash();
      forall c
        ensures Rg.IsSingle(AnyOrSlash()) && Rg.Accepts(AnyOrSlash(), c)
      {
        AnyOrSlashAccepts(c);
      }
      return "{?,[/]}", AnyOrSlash();
    }
    C.LexOne("?", Rg.One(Rg.AnyChar));
    return "?", Rg.One(Rg.AnyChar);
  }

  /** The class case of translateRgGlob. */
  method TranslateClass(pat: string, i: nat, allowSlash: bool, ghost term: Go.Term)
    returns (piece: string, next: nat, satisfiable: bool, ghost t: Rg.Token)
    requires i < |pat| && pat[i] == '[' && Go.ClassTerm(pat[i + 1..]).Some?
    requires term == Go.ClassTerm(pat[i + 1..]).value.0
    ensures i < next <= |pat| && Go.ClassTerm(pat[i + 1..]).value.1 == pat[next..]
    ensures satisfiable ==> Rg.Lex(piece) == Some([t]) && !C.Dangles(piece)
    ensures satisfiable ==> SlotAgrees(Heard(term), t, allowSlash)
    ensures satisfiable && allowSlash && Go.Accepts(Heard(term), '/') ==>
              Rg.Accepts(t, '/') || i == 0 || pat[i - 1] == '/' || next == |pat| || pat[next] == '/'
    ensures !satisfiable ==> forall c :: allowSlash || c != '/' ==> !Go.Accepts(Heard(term), c)
  {
    var neg, singles, ranges;
    neg, singles, ranges, next := C.ParseGoClass(pat, i, allowSlash);
    ghost var kept := Heard(term).spans;
    assert forall c :: C.IsMember(c, singles, ranges) <==> Go.InSpans(c, kept) && (allowSlash || c != '/');
    var members := singles;
    if neg && !allowSlash && (|singles| > 0 || |ranges| > 0) {
      members := singles + ['/'];
      assert ranges != [] ==> C.IsMember(ranges[0].lo, singles, ranges);
      assert singles != [] ==> C.IsMember(singles[0], singles, ranges);
    }
    assert forall c :: C.IsMember(c, members, ranges) <==>
                       C.IsMember(c, singles, ranges) || (c == '/' && members != singles);
    piece, satisfiable := C.EmitRgClass(neg, members, ranges);
    if satisfiable {
      t := Rg.Lex(piece).value[0];
      assert Rg.Lex(piece).value == [t];
    } else if neg {
      var reachable := allowSlash && i > 0 && pat[i - 1] != '/' && next < |pat| && pat[next] != '/';
      assert forall c :: Go.InSpans(c, kept) && (allowSlash || c != '/') ==> C.IsMember(c, singles, ranges);
      piece, t := AnyCharPiece(reachable);
      satisfiable := true;
    } else {
      t := Rg.One(Rg.AnyChar);
    }
  }

  /* ---- The whole pattern ---- */

  /** glob is the translation of the terms in raw: its tokens are rs. */
  ghost predicate Translated(glob: string, raw: seq<Go.Term>, rs: seq<Rg.Token>, allowSlash: bool, endsHere: bool) {
    && Rg.Lex(glob) == Some(rs)
    && (glob != "" ==> glob[|glob| - 1] != '\\')
    && ListsAgree(Squash(HeardAll(raw)), rs, allowSlash, endsHere)
  }

  lemma {:induction false} SquashEnds(ts: seq<Go.Term>)
    requires ts != []
    ensures Squash(ts) != [] && Squash(ts)[|Squash(ts)| - 1] == ts[|ts| - 1]
  {
  }

  lemma SquashPush(raw: seq<Go.Term>, t: Go.Term)
    ensures var gs := Squash(HeardAll(raw));
            Squash(HeardAll(raw + [t])) ==
              if t.Star? && raw != [] && raw[|raw| - 1].Star? then gs else gs + [Heard(t)]
  {
    var all := HeardAll(raw + [t]);
    assert all[..|raw|] == HeardAll(raw);
    if raw != [] {
      SquashEnds(HeardAll(raw));
    }
  }

  lemma PushSlot(gs: seq<Go.Term>, rs: seq<Rg.Token>, allowSlash: bool, endsHere: bool,
                 g: Go.Term, r: Rg.Token, endsAfter: bool)
    requires ListsAgree(gs, rs, allowSlash, endsHere)
    requires SlotAgrees(g, r, allowSlash)
    requires endsHere ==> g == Go.Lit('/')
    requires allowSlash && !g.Star? && Go.Accepts(g, '/') ==>
               Rg.Accepts(r, '/') || gs == [] || gs[|gs| - 1] == Go.Lit('/') || endsAfter
    ensures ListsAgree(gs + [g], rs + [r], allowSlash, endsAfter)
  {
    var gs', rs' := gs + [g], rs + [r];
    assert SlotsAgree(gs', rs', allowSlash);
    if allowSlash {
      forall k | 0 <= k < |gs'| && !gs'[k].Star?
        ensures SlashAtEdge(gs', rs', k, endsAfter)
      {
        if k < |gs| {
          assert SlashAtEdge(gs, rs, k, endsHere);
        }
      }
    }
  }

  lemma PushShape(raw: seq<Go.Term>, t: Go.Term)
    requires t.Star? && raw != [] ==> !raw[|raw| - 1].Star?
    ensures Squash(HeardAll(raw + [t])) == Squash(HeardAll(raw)) + [Heard(t)]
    ensures var gs := Squash(HeardAll(raw));
            if raw == [] then gs == [] else gs != [] && gs[|gs| - 1] == Heard(raw[|raw| - 1])
  {
    SquashPush(raw, t);
    if raw != [] {
      SquashEnds(HeardAll(raw));
    }
  }

  lemma PushText(glob: string, piece: string, rs: seq<Rg.Token>, tok: Rg.Token)
    requires Rg.Lex(glob) == Some(rs) && Rg.Lex(piece) == Some([tok]) && !C.Dangles(piece)
    ensures Rg.Lex(glob + piece) == Some(rs + [tok])
    ensures (glob + piece)[|glob + piece| - 1] != '\\'
  {
    Rg.LexConcat(glob, piece);
  }

  lemma PushTerm(glob: string, raw: seq<Go.Term>, rs: seq<Rg.Token>, allowSlash: bool, endsHere: bool,
                 t: Go.Term, piece: string, tok: Rg.Token, endsAfter: bool)
    requires Translated(glob, raw, rs, allowSlash, endsHere)
    requires Rg.Lex(piece) == Some([tok]) && !C.Dangles(piece)
    requires SlotAgrees(Heard(t), tok, allowSlash)
    requires t.Star? && raw != [] ==> !raw[|raw| - 1].Star?
    requires endsHere ==> t == Go.Lit('/')
    requires allowSlash && !t.Star? && Go.Accepts(Heard(t), '/') ==>
               Rg.Accepts(tok, '/') || raw == [] || raw[|raw| - 1] == Go.Lit('/') || endsAfter
    ensures Translated(glob + piece, raw + [t], rs + [tok], allowSlash, endsAfter)
  {
    PushText(glob, piece, rs, tok);
    PushShape(raw, t);
    PushSlot(Squash(HeardAll(raw)), rs, allowSlash, endsHere, Heard(t), tok, endsAfter);
  }

  lemma LiteralSlot(c: char, t: Rg.Token, piece: string, allowSlash: bool)
    requires StandsFor(piece, t, c) && (allowSlash || c != '/')
    ensures SlotAgrees(Heard(Go.Lit(c)), t, allowSlash)
    ensures Go.Accepts(Heard(Go.Lit(c)), '/') ==> Rg.Accepts(t, '/')
  {
  }

  /** The cases of translateRgGlob other than stars and classes. The pattern is
      well formed, so a backslash always has a partner. */
  method PlainPiece(pat: string, i: nat, allowSlash: bool)
    returns (piece: string, next: nat, ghost term: Go.Term, ghost t: Rg.Token)
    requires i < |pat| && pat[i] != '*' && pat[i] != '[' && Go.FirstTerm(pat[i..]).Some?
    requires allowSlash || Go.NoSlash(pat)
    ensures i < next <= |pat| && Go.FirstTerm(pat[i..]) == Some((term, pat[next..]))
    ensures Rg.Lex(piece) == Some([t]) && !C.Dangles(piece)
    ensures !term.Star? && SlotAgrees(Heard(term), t, allowSlash)
    ensures Go.Accepts(Heard(term), '/') ==> Rg.Accepts(t, '/')
    ensures pat[i] == '/' || pat[next - 1] == '/' ==> term == Go.Lit('/')
  {
    ghost var c := pat[i];
    next := i + 1;
    match pat[i] {
      case '\\' =>
        assert pat[i..][2..] == pat[i + 2..];
        next, c := i + 2, pat[i + 1];
        match pat[i + 1] {
          case '\\' =>
            BoxedBackslash();
            piece, t := "[\\\\]", BoxedToken('\\', 2);
          case '{' | '}' =>
            BoxedStandsFor(c);
            piece, t := ['[', pat[i + 1], ']'], BoxedToken(c, 1);
          case _ =>
            EscapedStandsFor(c);
            piece, t := ['\\', pat[i + 1]], PlainToken(c);
        }
      case '{' | '}' =>
        BoxedStandsFor(c);
        piece, t := ['[', pat[i], ']'], BoxedToken(c, 1);
      case '?' =>
        C.LexOne("?", Rg.One(Rg.AnyChar));
        return "?", next, Go.AnyChar, Rg.One(Rg.AnyChar);
      case _ =>
        PlainStandsFor(c);
        piece, t := [pat[i]], PlainToken(c);
    }
    term := Go.Lit(c);
    LiteralSlot(c, t, piece, allowSlash);
  }

  lemma StarPush(glob: string, raw: seq<Go.Term>, rs: seq<Rg.Token>, allowSlash: bool)
    requires Translated(glob, raw, rs, allowSlash, false)
    requires raw != [] ==> !raw[|raw| - 1].Star?
    ensures Translated(glob + "*", raw + [Go.Star], rs + [Rg.One(Rg.Star)], allowSlash, false)
  {
    C.LexOne("*", Rg.One(Rg.Star));
    PushTerm(glob, raw, rs, allowSlash, false, Go.Star, "*", Rg.One(Rg.Star), false);
  }

  lemma StarAgain(glob: string, raw: seq<Go.Term>, rs: seq<Rg.Token>, allowSlash: bool, endsHere: bool)
    requires Translated(glob, raw, rs, allowSlash, endsHere)
    requires raw != [] && raw[|raw| - 1].Star?
    ensures Translated(glob, raw + [Go.Star], rs, allowSlash, endsHere)
  {
    SquashPush(raw, Go.Star);
  }

  lemma EndsLater(glob: string, raw: seq<Go.Term>, rs: seq<Rg.Token>, allowSlash: bool, endsHere: bool)
    requires Translated(glob, raw, rs, allowSlash, false)
    ensures Translated(glob, raw, rs, allowSlash, endsHere)
  {
    var gs := Squash(HeardAll(raw));
    if allowSlash {
      forall k | 0 <= k < |gs| && !gs[k].Star?
        ensures SlashAtEdge(gs, rs, k, endsHere)
      {
        assert SlashAtEdge(gs, rs, k, false);
      }
    }
  }

  /** One pass of the translation loop has read pat[..i]. */
  ghost predicate Progress(pat: string, i: nat, raw: seq<Go.Term>) {
    && i <= |pat|
    && Go.WellFormed(pat) && Go.WellFormed(pat[i..])
    && Go.Parse(pat).value == raw + Go.Parse(pat[i..]).value
    && (raw == [] <==> i == 0)
    && (i > 0 && pat[i - 1] == '/' ==> raw[|raw| - 1] == Go.Lit('/'))
  }

  lemma ParseStep(s: string, term: Go.Term, rest: string)
    requires s != "" && Go.WellFormed(s) && Go.FirstTerm(s) == Some((term, rest))
    ensures Go.WellFormed(rest) && Go.Parse(s).value == [term] + Go.Parse(rest).value
  {
  }

  lemma ProgressStep(pat: string, i: nat, raw: seq<Go.Term>, term: Go.Term, next: nat)
    requires Progress(pat, i, raw) && i < next <= |pat|
    requires Go.WellFormed(pat[next..])
    requires Go.Parse(pat[i..]).value == [term] + Go.Parse(pat[next..]).value
    requires pat[next - 1] == '/' ==> term == Go.Lit('/')
    ensures Progress(pat, next, raw + [term])
  {
    Regroup(Go.Parse(pat).value, raw, term, Go.Parse(pat[next..]).value);
  }

  lemma Regroup(all: seq<Go.Term>, raw: seq<Go.Term>, term: Go.Term, rest: seq<Go.Term>)
    requires all == raw + ([term] + rest)
    ensures all == raw + [term] + rest
  {
  }

  lemma StarProgress(pat: string, i: nat, raw: seq<Go.Term>)
    requires Progress(pat, i, raw) && i < |pat| && pat[i] == '*'
    ensures Progress(pat, i + 1, raw + [Go.Star])
  {
    ParseStep(pat[i..], Go.Star, pat[i + 1..]);
    ProgressStep(pat, i, raw, Go.Star, i + 1);
  }

  lemma {:induction false} ClassEndsInBracket(s: string)
    requires Go.Items(s).Some?
    ensures |Go.Items(s).value.1| < |s| && s[|s| - |Go.Items(s).value.1| - 1] == ']'
    ensures s[|s| - |Go.Items(s).value.1|..] == Go.Items(s).value.1
    decreases |s|
  {
    if s[0] != ']' {
      var rest := Go.Item(s).value.1;
      ItemTail(s);
      ClassEndsInBracket(rest);
    }
  }

  lemma ItemTail(s: string)
    requires Go.Item(s).Some?
    ensures Go.Item(s).value.1 == s[|s| - |Go.Item(s).value.1|..]
  {
  }

  lemma ClassStep(pat: string, i: nat, next: nat)
    requires i < next <= |pat| && pat[i] == '[' && Go.ClassTerm(pat[i + 1..]).Some?
    requires Go.ClassTerm(pat[i + 1..]).value.1 == pat[next..]
    ensures pat[next - 1] == ']'
  {
    ClassEndsInBracket(Go.AfterCaret(pat[i + 1..]));
  }

  /** What a finished translation means. Paths are relative and in normal form. */
  ghost predicate Renders(glob: string, ts: seq<Go.Term>, allowSlash: bool) {
    && AppendSafe(glob)
    && (forall s :: Rg.GlobMatches(glob, s) ==> Go.Matches(ts, s) && (allowSlash || Go.NoSlash(s)))
    && (forall s :: Relative(s) && (allowSlash || Go.NoSlash(s)) && Go.Matches(ts, s) ==> Rg.GlobMatches(glob, s))
  }

  predicate Relative(s: string) { Tidy(s) && (s != "" ==> s[0] != '/') }

  lemma TranslatedRenders(glob: string, raw: seq<Go.Term>, rs: seq<Rg.Token>, allowSlash: bool)
    requires Translated(glob, raw, rs, allowSlash, true)
    ensures Renders(glob, HeardAll(raw), allowSlash)
  {
    Appendable(glob);
    forall s: string
      ensures Rg.GlobMatches(glob, s) ==> Go.Matches(HeardAll(raw), s) && (allowSlash || Go.NoSlash(s))
      ensures Relative(s) && (allowSlash || Go.NoSlash(s)) && Go.Matches(HeardAll(raw), s) ==> Rg.GlobMatches(glob, s)
    {
      SquashKeepsMeaning(HeardAll(raw), s);
      ListsMatchAlike(Squash(HeardAll(raw)), rs, allowSlash, s);
    }
  }

  lemma DeadClass(ts: seq<Go.Term>, k: nat, allowSlash: bool)
    requires k < |ts| && ts[k].Class?
    requires forall c :: allowSlash || c != '/' ==> !Go.Accepts(Heard(ts[k]), c)
    ensures forall s :: allowSlash || Go.NoSlash(s) ==> !Go.Matches(HeardAll(ts), s)
  {
    forall s: string | allowSlash || Go.NoSlash(s)
      ensures !Go.Matches(HeardAll(ts), s)
    {
      DeadTerm(HeardAll(ts), k, s);
    }
  }

  predicate AtSeparator(pat: string, i: nat)
    requires i <= |pat|
  {
    i == |pat| || pat[i] == '/'
  }

  /** The state of the translation loop between two tokens. */
  ghost predicate Loop(pat: string, i: nat, glob: string, raw: seq<Go.Term>, rs: seq<Rg.Token>, allowSlash: bool) {
    && Progress(pat, i, raw)
    && Translated(glob, raw, rs, allowSlash, AtSeparator(pat, i))
    && (raw != [] && raw[|raw| - 1].Star? && i < |pat| ==> pat[i] != '*')
    && (allowSlash || Go.NoSlash(pat))
  }

  lemma FirstStar(pat: string, i: nat, glob: string, raw: seq<Go.Term>, rs: seq<Rg.Token>, allowSlash: bool)
    requires Loop(pat, i, glob, raw, rs, allowSlash) && i < |pat| && pat[i] == '*'
    ensures Progress(pat, i + 1, raw + [Go.Star])
    ensures Translated(glob + "*", raw + [Go.Star], rs + [Rg.One(Rg.Star)], allowSlash, false)
  {
    StarPush(glob, raw, rs, allowSlash);
    StarProgress(pat, i, raw);
  }

  /** A run of stars becomes one star. */
  method TranslateStars(pat: string, i0: nat, glob0: string, ghost raw0: seq<Go.Term>, ghost rs0: seq<Rg.Token>,
                        allowSlash: bool)
    returns (i: nat, glob: string, ghost raw: seq<Go.Term>, ghost rs: seq<Rg.Token>)
    requires Loop(pat, i0, glob0, raw0, rs0, allowSlash) && i0 < |pat| && pat[i0] == '*'
    ensures Loop(pat, i, glob, raw, rs, allowSlash) && i0 < i
  {
    FirstStar(pat, i0, glob0, raw0, rs0, allowSlash);
    i, glob, raw, rs := i0 + 1, glob0 + "*", raw0 + [Go.Star], rs0 + [Rg.One(Rg.Star)];
    while i < |pat| && pat[i] == '*'
      invariant i0 < i && Progress(pat, i, raw)
      invariant Translated(glob, raw, rs, allowSlash, false)
      invariant raw != [] && raw[|raw| - 1].Star?
    {
      StarAgain(glob, raw, rs, allowSlash, false);
      StarProgress(pat, i, raw);
      i, raw := i + 1, raw + [Go.Star];
    }
    EndsLater(glob, raw, rs, allowSlash, AtSeparator(pat, i));
  }

  lemma TermPushed(pat: string, i: nat, glob: string, raw: seq<Go.Term>, rs: seq<Rg.Token>, allowSlash: bool,
                   term: Go.Term, piece: string, t: Rg.Token, next: nat)
    requires Loop(pat, i, glob, raw, rs, allowSlash) && i < next <= |pat|
    requires Go.FirstTerm(pat[i..]) == Some((term, pat[next..])) && !term.Star?
    requires Rg.Lex(piece) == Some([t]) && !C.Dangles(piece)
    requires SlotAgrees(Heard(term), t, allowSlash)
    requires pat[i] == '/' || pat[next - 1] == '/' ==> term == Go.Lit('/')
    requires allowSlash && Go.Accepts(Heard(term), '/') ==>
               Rg.Accepts(t, '/') || i == 0 || pat[i - 1] == '/' || AtSeparator(pat, next)
    ensures Loop(pat, next, glob + piece, raw + [term], rs + [t], allowSlash)
  {
    ParseStep(pat[i..], term, pat[next..]);
    PushTerm(glob, raw, rs, allowSlash, AtSeparator(pat, i), term, piece, t, AtSeparator(pat, next));
    ProgressStep(pat, i, raw, term, next);
  }

  /** translateRgGlob: the glob stands for the pattern as the class parser
      hears it, or there is no glob and the pattern matches nothing. */
  method TranslateRgGlob(pat: string, allowSlash: bool) returns (glob: string, satisfiable: bool)
    requires Go.WellFormed(pat) && (allowSlash || Go.NoSlash(pat))
    ensures satisfiable ==> Renders(glob, HeardAll(Go.Parse(pat).value), allowSlash)
    ensures !satisfiable ==>
              forall s :: allowSlash || Go.NoSlash(s) ==> !Go.Matches(HeardAll(Go.Parse(pat).value), s)
  {
    glob := "";
    ghost var raw: seq<Go.Term>, rs: seq<Rg.Token> := [], [];
    assert pat[0..] == pat;
    var i := 0;
    while i < |pat|
      invariant Loop(pat, i, glob, raw, rs, allowSlash)
    {
      if pat[i] == '*' {
        i, glob, raw, rs := TranslateStars(pat, i, glob, raw, rs, allowSlash);
      } else if pat[i] == '[' {
        ghost var term := Go.FirstTerm(pat[i..]).value.0;
        var piece, next, ok, t := TranslateClass(pat, i, allowSlash, term);
        if !ok {
          DeadClass(Go.Parse(pat).value, |raw|, allowSlash);
          return "", false;
        }
        ClassStep(pat, i, next);
        TermPushed(pat, i, glob, raw, rs, allowSlash, term, piece, t, next);
        glob, raw, rs, i := glob + piece, raw + [term], rs + [t], next;
      } else {
        var piece, next, term, t := PlainPiece(pat, i, allowSlash);
        TermPushed(pat, i, glob, raw, rs, allowSlash, term, piece, t, next);
        glob, raw, rs, i := glob + piece, raw + [term], rs + [t], next;
      }
    }
    assert pat[i..] == "" && raw == Go.Parse(pat).value;
    TranslatedRenders(glob, raw, rs, allowSlash);
    return glob, true;
  }
}
