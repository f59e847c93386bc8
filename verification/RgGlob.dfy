/** ripgrep's glob language (globset, with the separator kept literal): a lexer
    that can fail, and the relation between a glob and the strings it matches.
    A `**` away from a separator is two stars; the recursive forms that a
    leading any-depth prefix and a trailing subtree suffix create are not part
    of this relation and are treated by name where they are added. Alternates
    do not nest. */
module RgGlob {
  import opened Wrappers

  datatype Range = Range(lo: char, hi: char)

  datatype Atom =
    | Lit(c: char)
    | AnyChar
    | Star
    | Class(negated: bool, ranges: seq<Range>)

  datatype Token =
    | One(atom: Atom)
    | Alternates(branches: seq<seq<Atom>>)

  /* ---- Lexer ---- */

  /** The inside of a class. A backslash is an ordinary member; ']' is a member
      only in first position; '-' is a member in first position and just before
      the closing ']', otherwise it opens a range; a reversed range is an error. */
  function ClassBody(s: string, ranges: seq<Range>, first: bool, inRange: bool): (r: Option<(seq<Range>, string)>)
    requires inRange ==> ranges != []
    ensures r.Some? ==> |r.value.1| < |s|
    decreases |s|
  {
    if s == "" then None
    else if s[0] == ']' && !first then
      Some((if inRange then ranges + [Range('-', '-')] else ranges, s[1..]))
    else if s[0] == '-' && !first && !inRange && ranges != [] then
      ClassBody(s[1..], ranges, false, true)
    else if inRange then
      var last := ranges[|ranges| - 1];
      if s[0] < last.lo then None
      else ClassBody(s[1..], ranges[..|ranges| - 1] + [Range(last.lo, s[0])], false, false)
    else ClassBody(s[1..], ranges + [Range(s[0], s[0])], false, false)
  }

  predicate Negates(s: string) { s != "" && (s[0] == '!' || s[0] == '^') }

  /** A class from the text after its '['. */
  function LexClass(s: string): (r: Option<(Atom, string)>)
    ensures r.Some? ==> r.value.0.Class? && |r.value.1| < |s|
  {
    match ClassBody(if Negates(s) then s[1..] else s, [], true, false)
    case None => None
    case Some((ranges, rest)) => Some((Class(Negates(s), ranges), rest))
  }

  /** One atom. Braces are not atoms, and a backslash does not change that:
      they are counted before escapes are resolved. */
  function LexAtom(s: string): (r: Option<(Atom, string)>)
    requires s != ""
    ensures r.Some? ==> |r.value.1| < |s|
  {
    if s[0] == '?' then Some((AnyChar, s[1..]))
    else if s[0] == '*' then Some((Star, s[1..]))
    else if s[0] == '[' then LexClass(s[1..])
    else if s[0] == '{' || s[0] == '}' then None
    else if s[0] != '\\' then Some((Lit(s[0]), s[1..]))
    else if |s| < 2 || s[1] == '{' || s[1] == '}' then None
    else Some((Lit(s[1]), s[2..]))
  }

  /** The branches up to the closing '}'. */
  function LexBranches(s: string, done: seq<seq<Atom>>, current: seq<Atom>): (r: Option<(seq<seq<Atom>>, string)>)
    ensures r.Some? ==> |r.value.1| < |s|
    decreases |s|
  {
    if s == "" then None
    else if s[0] == '}' then Some((done + [current], s[1..]))
    else if s[0] == ',' then LexBranches(s[1..], done + [current], [])
    else match LexAtom(s)
      case None => None
      case Some((a, rest)) => LexBranches(rest, done, current + [a])
  }

  function LexToken(s: string): (r: Option<(Token, string)>)
    requires s != ""
    ensures r.Some? ==> |r.value.1| < |s|
  {
    if s[0] == '{' then
      match LexBranches(s[1..], [], [])
      case None => None
      case Some((branches, rest)) => Some((Alternates(branches), rest))
    else
      match LexAtom(s)
      case None => None
      case Some((a, rest)) => Some((One(a), rest))
  }

  /** The tokens of a glob; None is a glob ripgrep refuses to parse. */
  function Lex(s: string): Option<seq<Token>>
    decreases |s|
  {
    if s == "" then Some([])
    else match LexToken(s)
      case None => None
      case Some((t, rest)) =>
        match Lex(rest)
        case None => None
        case Some(ts) => Some([t] + ts)
  }

  predicate WellFormed(s: string) { Lex(s).Some? }

  /* ---- Meaning ---- */

  predicate NoSlash(s: string) { '/' !in s }

  ghost predicate InRanges(c: char, ranges: seq<Range>) {
    exists k :: 0 <= k < |ranges| && ranges[k].lo <= c <= ranges[k].hi
  }

  /** The characters a one-character atom stands for. A class may stand for '/'. */
  ghost predicate AtomAccepts(a: Atom, c: char)
    requires !a.Star?
  {
    match a
    case AnyChar => c != '/'
    case Class(negated, ranges) => InRanges(c, ranges) != negated
    case Lit(x) => c == x
  }

  ghost predicate AtomsMatch(atoms: seq<Atom>, s: string)
    decreases |atoms|, 0
  {
    if atoms == [] then s == ""
    else if atoms[0].Star? then exists k :: 0 <= k <= |s| && StarTakes(atoms[1..], s, k)
    else s != "" && AtomAccepts(atoms[0], s[0]) && AtomsMatch(atoms[1..], s[1..])
  }

  ghost predicate StarTakes(rest: seq<Atom>, s: string, k: nat)
    requires k <= |s|
    decreases |rest|, 1
  {
    NoSlash(s[..k]) && AtomsMatch(rest, s[k..])
  }

  ghost predicate TokenMatches(t: Token, s: string) {
    match t
    case One(a) => AtomsMatch([a], s)
    case Alternates(branches) => exists j :: 0 <= j < |branches| && AtomsMatch(branches[j], s)
  }

  ghost predicate Matches(ts: seq<Token>, s: string)
    decreases |ts|, 0
  {
    if ts == [] then s == ""
    else exists k :: 0 <= k <= |s| && TokenTakes(ts[0], ts[1..], s, k)
  }

  ghost predicate TokenTakes(t: Token, rest: seq<Token>, s: string, k: nat)
    requires k <= |s|
    decreases |rest|, 1
  {
    TokenMatches(t, s[..k]) && Matches(rest, s[k..])
  }

  ghost predicate GlobMatches(glob: string, s: string) {
    WellFormed(glob) && Matches(Lex(glob).value, s)
  }

  ghost function Language(glob: string): iset<string> {
    iset s: string | GlobMatches(glob, s)
  }

  /* ---- Lexing a concatenation ---- */

  lemma {:induction false} ClassBodyExtends(u: string, v: string, ranges: seq<Range>, first: bool, inRange: bool)
    requires inRange ==> ranges != []
    requires ClassBody(u, ranges, first, inRange).Some?
    ensures ClassBody(u + v, ranges, first, inRange)
         == Some((ClassBody(u, ranges, first, inRange).value.0, ClassBody(u, ranges, first, inRange).value.1 + v))
    decreases |u|
  {
    assert (u + v)[0] == u[0];
    assert (u + v)[1..] == u[1..] + v;
    if u[0] == ']' && !first {
    } else if u[0] == '-' && !first && !inRange && ranges != [] {
      ClassBodyExtends(u[1..], v, ranges, false, true);
    } else if inRange {
      var last := ranges[|ranges| - 1];
      ClassBodyExtends(u[1..], v, ranges[..|ranges| - 1] + [Range(last.lo, u[0])], false, false);
    } else {
      ClassBodyExtends(u[1..], v, ranges + [Range(u[0], u[0])], false, false);
    }
  }

  lemma AtomExtends(u: string, v: string)
    requires u != "" && LexAtom(u).Some?
    ensures LexAtom(u + v) == Some((LexAtom(u).value.0, LexAtom(u).value.1 + v))
  {
    assert (u + v)[0] == u[0];
    assert (u + v)[1..] == u[1..] + v;
    if u[0] == '[' {
      var body := u[1..];
      assert body != "" && (body + v)[0] == body[0];
      assert (body + v)[1..] == body[1..] + v;
      ClassBodyExtends(if Negates(body) then body[1..] else body, v, [], true, false);
    } else if u[0] == '\\' {
      assert (u + v)[2..] == u[2..] + v;
    }
  }

  lemma {:induction false} BranchesExtends(u: string, v: string, done: seq<seq<Atom>>, current: seq<Atom>)
    requires LexBranches(u, done, current).Some?
    ensures LexBranches(u + v, done, current)
         == Some((LexBranches(u, done, current).value.0, LexBranches(u, done, current).value.1 + v))
    decreases |u|
  {
    assert (u + v)[0] == u[0];
    assert (u + v)[1..] == u[1..] + v;
    if u[0] == '}' {
    } else if u[0] == ',' {
      BranchesExtends(u[1..], v, done + [current], []);
    } else {
      AtomExtends(u, v);
      BranchesExtends(LexAtom(u).value.1, v, done, current + [LexAtom(u).value.0]);
    }
  }

  /** Text that lexes keeps its tokens whatever follows it. */
  lemma {:induction false} LexConcat(u: string, v: string)
    requires WellFormed(u)
    ensures WellFormed(u + v) <==> WellFormed(v)
    ensures WellFormed(v) ==> Lex(u + v).value == Lex(u).value + Lex(v).value
    decreases |u|
  {
    if u == "" {
      assert u + v == v;
    } else {
      assert (u + v)[0] == u[0];
      assert (u + v)[1..] == u[1..] + v;
      if u[0] == '{' {
        BranchesExtends(u[1..], v, [], []);
      } else {
        AtomExtends(u, v);
      }
      LexConcat(LexToken(u).value.1, v);
    }
  }

  /* ---- Tokens that stand for exactly one character ---- */

  predicate IsStar(t: Token) { t == One(Star) }

  predicate IsSingle(t: Token) {
    match t
    case One(a) => !a.Star?
    case Alternates(branches) => forall b: seq<Atom> :: b in branches ==> |b| == 1 && !b[0].Star?
  }

  ghost predicate Accepts(t: Token, c: char)
    requires IsSingle(t)
  {
    match t
    case One(a) => AtomAccepts(a, c)
    case Alternates(branches) => exists j :: 0 <= j < |branches| && AtomAccepts(branches[j][0], c)
  }

  lemma SingleMatches(t: Token, s: string)
    requires IsSingle(t)
    ensures TokenMatches(t, s) <==> |s| == 1 && Accepts(t, s[0])
  {
    forall a: Atom | !a.Star?
      ensures AtomsMatch([a], s) <==> |s| == 1 && AtomAccepts(a, s[0])
    {
      assert [a][1..] == [];
    }
    if t.Alternates? {
      forall j | 0 <= j < |t.branches|
        ensures AtomsMatch(t.branches[j], s) <==> |s| == 1 && AtomAccepts(t.branches[j][0], s[0])
      {
        assert t.branches[j] in t.branches;
        assert t.branches[j] == [t.branches[j][0]];
      }
    }
  }

  lemma MatchesSingle(ts: seq<Token>, s: string)
    requires ts != [] && IsSingle(ts[0])
    ensures Matches(ts, s) <==> s != "" && Accepts(ts[0], s[0]) && Matches(ts[1..], s[1..])
  {
    forall k | 0 <= k <= |s|
      ensures TokenTakes(ts[0], ts[1..], s, k) <==> k == 1 && Accepts(ts[0], s[0]) && Matches(ts[1..], s[1..])
    {
      SingleMatches(ts[0], s[..k]);
    }
    if s != "" && Accepts(ts[0], s[0]) && Matches(ts[1..], s[1..]) {
      assert TokenTakes(ts[0], ts[1..], s, 1);
    }
  }

  lemma StarAtom(p: string)
    ensures TokenMatches(One(Star), p) <==> NoSlash(p)
  {
    assert [Star][1..] == [];
    if NoSlash(p) {
      assert p[..|p|] == p;
      assert StarTakes([], p, |p|);
    }
    if AtomsMatch([Star], p) {
      var m :| 0 <= m <= |p| && StarTakes([], p, m);
      assert p[..m] == p;
    }
  }

  lemma StarIntro(ts: seq<Token>, p: string, s: string)
    requires ts != [] && IsStar(ts[0]) && NoSlash(p) && Matches(ts[1..], s)
    ensures Matches(ts, p + s)
  {
    StarAtom(p);
    assert (p + s)[..|p|] == p && (p + s)[|p|..] == s;
    assert TokenTakes(ts[0], ts[1..], p + s, |p|);
  }

  lemma StarElim(ts: seq<Token>, s: string) returns (k: nat)
    requires ts != [] && IsStar(ts[0]) && Matches(ts, s)
    ensures k <= |s| && NoSlash(s[..k]) && Matches(ts[1..], s[k..])
  {
    k :| 0 <= k <= |s| && TokenTakes(ts[0], ts[1..], s, k);
    StarAtom(s[..k]);
  }
}
