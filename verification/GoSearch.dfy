/** filepath.Match as the library computes it: the chunk behind each star is
    put at the first place it fits and never moved again. When that finds every
    match its documentation promises, and when it does not. */
module GoSearch {
  import opened Wrappers
  import opened GoPattern
  import opened GlobAgreement

  /* ---- The search ---- */

  /** Whether stars come first, the one-character terms behind them, and what
      follows those. */
  datatype Cut = Cut(star: bool, chunk: seq<Term>, rest: seq<Term>)

  function AfterStars(ts: seq<Term>): (r: seq<Term>)
    ensures |r| <= |ts| && (ts != [] && ts[0].Star? ==> |r| < |ts|)
    ensures forall t :: t in r ==> t in ts
    ensures r != [] ==> !r[0].Star?
  {
    if ts != [] && ts[0].Star? then AfterStars(ts[1..]) else ts
  }

  function ChunkLength(ts: seq<Term>): (n: nat)
    ensures n <= |ts| && forall i :: 0 <= i < n ==> !ts[i].Star?
    ensures n < |ts| ==> ts[n].Star?
  {
    if ts == [] || ts[0].Star? then 0 else 1 + ChunkLength(ts[1..])
  }

  /** scanChunk. */
  function FirstCut(ts: seq<Term>): (c: Cut)
    requires ts != []
    ensures Starless(c.chunk) && AfterStars(ts) == c.chunk + c.rest
    ensures |c.rest| < |ts| && (c.rest != [] ==> c.rest[0].Star?)
    ensures c.chunk == [] ==> c.star && c.rest == []
    ensures forall t :: t in c.chunk || t in c.rest ==> t in ts
  {
    var body := AfterStars(ts);
    Cut(ts[0].Star?, body[..ChunkLength(body)], body[ChunkLength(body)..])
  }

  predicate Starless(chunk: seq<Term>) { forall i :: 0 <= i < |chunk| ==> !chunk[i].Star? }

  /** matchChunk: the chunk is a match of the beginning of s. */
  predicate Fits(chunk: seq<Term>, s: string)
    requires Starless(chunk)
  {
    |chunk| <= |s| && forall i :: 0 <= i < |chunk| ==> Accepts(chunk[i], s[i])
  }

  /** The last chunk also has to use the name up. */
  predicate Here(chunk: seq<Term>, s: string, last: bool)
    requires Starless(chunk)
  {
    Fits(chunk, s) && (last ==> |s| == |chunk|)
  }

  /** The first place for the chunk: here, or behind a star further on, but not
      past a '/'. */
  function Search(chunk: seq<Term>, s: string, last: bool, star: bool): (r: Option<nat>)
    requires Starless(chunk)
    ensures r.Some? ==> r.value + |chunk| <= |s|
  {
    if Here(chunk, s, last) then Some(0)
    else if star && s != "" && s[0] != '/' then
      match Search(chunk, s[1..], last, true)
      case None => None
      case Some(i) => Some(i + 1)
    else None
  }

  predicate Finds(ts: seq<Term>, s: string)
    decreases |ts|
  {
    if ts == [] then s == ""
    else
      var c := FirstCut(ts);
      if c.chunk == [] then NoSlash(s)
      else match Search(c.chunk, s, c.rest == [], c.star)
        case None => false
        case Some(i) => Finds(c.rest, s[i + |c.chunk|..])
  }

  /** filepath.Match reports a match without an error. On a malformed pattern
      it never does: it has parsed every chunk before it reports one. */
  predicate FileMatch(pattern: string, name: string) {
    WellFormed(pattern) && Finds(Parse(pattern).value, name)
  }

  lemma {:induction false} SearchFits(chunk: seq<Term>, s: string, last: bool, star: bool)
    requires Starless(chunk) && Search(chunk, s, last, star).Some?
    ensures var i := Search(chunk, s, last, star).value;
            (!star ==> i == 0) && NoSlash(s[..i]) && Here(chunk, s[i..], last)
  {
    hide Fits;
    if Here(chunk, s, last) {
      assert s[0..] == s;
    } else {
      SearchFits(chunk, s[1..], last, true);
      var i := Search(chunk, s[1..], last, true).value;
      assert s[..i + 1] == [s[0]] + s[1..][..i] && s[1..][i..] == s[i + 1..];
    }
  }

  lemma {:induction false} SearchIsFirst(chunk: seq<Term>, s: string, last: bool, star: bool, j: nat)
    requires Starless(chunk) && j <= |s| && NoSlash(s[..j]) && (!star ==> j == 0) && Here(chunk, s[j..], last)
    ensures Search(chunk, s, last, star).Some? && Search(chunk, s, last, star).value <= j
  {
    if !Here(chunk, s, last) {
      assert j > 0 by { assert s[0..] == s; }
      assert s[0] == s[..j][0];
      assert s[1..][..j - 1] == s[..j][1..] && s[1..][j - 1..] == s[j..];
      SearchIsFirst(chunk, s[1..], last, star, j - 1);
    }
  }

  /* ---- What a cut means ---- */

  /** The stars take j characters, the chunk the next ones. */
  predicate Taken(c: Cut, s: string, j: nat)
    requires Starless(c.chunk)
  {
    j + |c.chunk| <= |s| && NoSlash(s[..j]) && (!c.star ==> j == 0)
    && Fits(c.chunk, s[j..]) && Matches(c.rest, s[j + |c.chunk|..])
  }

  lemma {:induction false} ChunkMatches(chunk: seq<Term>, rest: seq<Term>, s: string)
    requires Starless(chunk)
    ensures Matches(chunk + rest, s) <==> Fits(chunk, s) && Matches(rest, s[|chunk|..])
    decreases |chunk|
  {
    if chunk == [] {
      assert chunk + rest == rest && s[0..] == s;
    } else {
      assert (chunk + rest)[1..] == chunk[1..] + rest;
      if s != "" {
        ChunkMatches(chunk[1..], rest, s[1..]);
        if |chunk| <= |s| {
          assert s[1..][|chunk| - 1..] == s[|chunk|..];
        }
        if Fits(chunk[1..], s[1..]) && Accepts(chunk[0], s[0]) {
          forall i | 0 <= i < |chunk|
            ensures Accepts(chunk[i], s[i])
          {
            if i > 0 {
              assert chunk[1..][i - 1] == chunk[i];
            }
          }
        }
      }
    }
  }

  /** Any number of stars in a row takes what one of them takes. */
  lemma {:induction false} StarsTake(ts: seq<Term>, s: string) returns (j: nat)
    requires ts != [] && ts[0].Star? && Matches(ts, s)
    ensures j <= |s| && NoSlash(s[..j]) && Matches(AfterStars(ts), s[j..])
    decreases |ts|
  {
    j := StarElim(ts, s);
    if |ts| > 1 && ts[1].Star? {
      var i := StarsTake(ts[1..], s[j..]);
      assert s[..j + i] == s[..j] + s[j..][..i] && s[j..][i..] == s[j + i..];
      j := j + i;
    } else {
      assert AfterStars(ts[1..]) == ts[1..];
    }
  }

  lemma {:induction false} StarsGive(ts: seq<Term>, p: string, s: string)
    requires ts != [] && ts[0].Star? && NoSlash(p) && Matches(AfterStars(ts), s)
    ensures Matches(ts, p + s)
    decreases |ts|
  {
    if |ts| > 1 && ts[1].Star? {
      StarsGive(ts[1..], p, s);
      StarIntro(ts, "", p + s);
      assert "" + (p + s) == p + s;
    } else {
      assert AfterStars(ts[1..]) == ts[1..];
      StarIntro(ts, p, s);
    }
  }

  lemma CutTaken(ts: seq<Term>, s: string) returns (j: nat)
    requires ts != [] && Matches(ts, s)
    ensures Taken(FirstCut(ts), s, j)
  {
    hide Matches, Fits;
    var c := FirstCut(ts);
    j := 0;
    if c.star {
      j := StarsTake(ts, s);
    } else {
      assert s[0..] == s;
    }
    ChunkMatches(c.chunk, c.rest, s[j..]);
    assert |c.chunk| <= |s[j..]| by { FitsLength(c.chunk, s[j..]); }
    assert s[j..][|c.chunk|..] == s[j + |c.chunk|..];
  }

  lemma FitsLength(chunk: seq<Term>, s: string)
    requires Starless(chunk) && Fits(chunk, s)
    ensures |chunk| <= |s|
  {
  }

  lemma CutGiven(ts: seq<Term>, s: string, j: nat)
    requires ts != [] && Taken(FirstCut(ts), s, j)
    ensures Matches(ts, s)
  {
    hide Matches, Fits;
    var c := FirstCut(ts);
    assert s[j..][|c.chunk|..] == s[j + |c.chunk|..];
    ChunkMatches(c.chunk, c.rest, s[j..]);
    if c.star {
      StarsGive(ts, s[..j], s[j..]);
      assert s[..j] + s[j..] == s;
    } else {
      assert s[0..] == s;
    }
  }

  lemma TrailingStar(ts: seq<Term>, s: string)
    requires ts != [] && FirstCut(ts).chunk == []
    ensures Matches(ts, s) <==> NoSlash(s)
  {
    hide FirstCut;
    var c := FirstCut(ts);
    if Matches(ts, s) {
      var j := CutTaken(ts, s);
      assert s == s[..j];
    }
    if NoSlash(s) {
      assert s[..|s|] == s;
      assert Taken(c, s, |s|);
      CutGiven(ts, s, |s|);
    }
  }

  /* ---- What the search finds ---- */

  lemma FindsCut(ts: seq<Term>, s: string)
    requires ts != []
    ensures var c := FirstCut(ts);
            var at := Search(c.chunk, s, c.rest == [], c.star);
            Finds(ts, s) <==> if c.chunk == [] then NoSlash(s) else at.Some? && Finds(c.rest, s[at.value + |c.chunk|..])
  {
    hide Search;
  }

  /** A match the library reports is one its documentation promises. */
  lemma {:induction false} FoundIsMatch(ts: seq<Term>, s: string)
    requires Finds(ts, s)
    ensures Matches(ts, s)
    decreases |ts|
  {
    hide Matches, Fits, NoSlash, FirstCut, Search;
    if ts == [] {
      EmptyMatches(s);
    } else {
      var c := FirstCut(ts);
      if c.chunk == [] {
        TrailingStar(ts, s);
      } else {
        var i := Search(c.chunk, s, c.rest == [], c.star).value;
        SearchFits(c.chunk, s, c.rest == [], c.star);
        FoundIsMatch(c.rest, s[i + |c.chunk|..]);
        CutGiven(ts, s, i);
      }
    }
  }

  lemma EmptyMatches(s: string)
    ensures Matches([], s) <==> s == ""
  {
  }

  /** The chunk fits twice, with no '/' up to the second place but one further
      on: a star behind it can follow the second place only. */
  ghost predicate Slips(chunk: seq<Term>)
    requires Starless(chunk)
  {
    exists d: nat, x: string :: SlipsOn(chunk, d, x)
  }

  predicate SlipsOn(chunk: seq<Term>, d: nat, x: string)
    requires Starless(chunk)
  {
    && 0 < d <= |chunk| && |x| == |chunk| + d
    && Fits(chunk, x) && Fits(chunk, x[d..])
    && NoSlash(x[..d]) && !NoSlash(x[|chunk|..])
  }

  /** Some chunk between two stars slips. */
  ghost predicate SomeSlip(ts: seq<Term>)
    decreases |ts|
  {
    ts != [] &&
    var c := FirstCut(ts);
    (c.star && c.rest != [] && Slips(c.chunk)) || SomeSlip(c.rest)
  }

  lemma FitsPrefix(chunk: seq<Term>, s: string, p: string)
    requires Starless(chunk) && |chunk| <= |p| && p <= s
    ensures Fits(chunk, p) <==> Fits(chunk, s)
  {
    assert forall i :: 0 <= i < |p| ==> p[i] == s[i];
  }

  lemma SlipFound(chunk: seq<Term>, s: string, i: nat, j: nat)
    requires Starless(chunk) && chunk != [] && i < j <= |s| - |chunk|
    requires Fits(chunk, s[i..]) && Fits(chunk, s[j..]) && NoSlash(s[..j])
    requires !NoSlash(s[i + |chunk|..j + |chunk|])
    ensures Slips(chunk)
  {
    hide Fits, NoSlash;
    if j - i <= |chunk| {
      SlipNear(chunk, s, i, j);
    } else {
      SlipFar(chunk, s, i, j);
    }
  }

  lemma SlipNear(chunk: seq<Term>, s: string, i: nat, j: nat)
    requires Starless(chunk) && i < j <= |s| - |chunk| && j - i <= |chunk|
    requires Fits(chunk, s[i..]) && Fits(chunk, s[j..]) && NoSlash(s[..j])
    requires !NoSlash(s[i + |chunk|..j + |chunk|])
    ensures Slips(chunk)
  {
    hide Fits, NoSlash;
    var x := s[i..j + |chunk|];
    FitsPrefix(chunk, s[i..], x);
    FitsPrefix(chunk, s[j..], x[j - i..]);
    NoSlashPart(s[..j], i, j);
    assert x[..j - i] == s[..j][i..j];
    assert x[|chunk|..] == s[i + |chunk|..j + |chunk|];
    assert SlipsOn(chunk, j - i, x);
  }

  lemma SlipFar(chunk: seq<Term>, s: string, i: nat, j: nat)
    requires Starless(chunk) && chunk != [] && i + |chunk| < j <= |s| - |chunk|
    requires Fits(chunk, s[i..]) && Fits(chunk, s[j..]) && NoSlash(s[..j])
    requires !NoSlash(s[i + |chunk|..j + |chunk|])
    ensures Slips(chunk)
  {
    hide Fits, NoSlash;
    var n := |chunk|;
    var u, v := s[i..i + n], s[j..j + n];
    FitsPrefix(chunk, s[i..], u);
    FitsPrefix(chunk, u + v, u);
    FitsPrefix(chunk, s[j..], v);
    NoSlashPart(s[..j], i, i + n);
    NoSlashPart(s[..j], i + n, j);
    NoSlashJoin(s[i + n..j], v);
    assert u == s[..j][i..i + n] && s[i + n..j] == s[..j][i + n..j];
    assert s[i + n..j + n] == s[i + n..j] + v;
    assert (u + v)[..n] == u && (u + v)[n..] == v;
    assert SlipsOn(chunk, n, u + v);
  }

  lemma NoSlashJoin(a: string, b: string)
    ensures NoSlash(a + b) <==> NoSlash(a) && NoSlash(b)
  {
  }

  lemma NoSlashPart(s: string, i: nat, j: nat)
    requires i <= j <= |s|
    ensures NoSlash(s) ==> NoSlash(s[i..j])
  {
  }

  /** Where the chunk is put first, what follows can still match. */
  lemma EarlierWillDo(c: Cut, s: string, i: nat, j: nat)
    requires Starless(c.chunk) && c.chunk != [] && Taken(c, s, j)
    requires i <= j && Here(c.chunk, s[i..], c.rest == [])
    requires c.rest != [] ==> c.rest[0].Star?
    requires NoSlash(s) || !(c.star && c.rest != [] && Slips(c.chunk))
    ensures i + |c.chunk| <= |s| && Matches(c.rest, s[i + |c.chunk|..])
  {
    hide Matches, Fits, Slips;
    var n := |c.chunk|;
    FitsLength(c.chunk, s[i..]);
    if c.rest == [] {
      EmptyMatches(s[j + n..]);
      assert i == j;
    } else if i < j {
      assert s[i + n..] == s[i + n..j + n] + s[j + n..];
      NoSlashPart(s, i + n, j + n);
      if !NoSlash(s[i + n..j + n]) {
        SlipFound(c.chunk, s, i, j);
      }
      StarMoves(c.rest, s[i + n..j + n], s[j + n..]);
    }
  }

  lemma SlipCut(ts: seq<Term>)
    requires ts != []
    ensures var c := FirstCut(ts);
            SomeSlip(ts) <==> (c.star && c.rest != [] && Slips(c.chunk)) || SomeSlip(c.rest)
  {
    hide Slips;
  }

  /** The search finds a place for the chunk with a match of the rest behind it. */
  lemma PlaceFound(ts: seq<Term>, s: string) returns (i: nat)
    requires ts != [] && FirstCut(ts).chunk != [] && Matches(ts, s) && (NoSlash(s) || !SomeSlip(ts))
    ensures var c := FirstCut(ts);
            && Search(c.chunk, s, c.rest == [], c.star) == Some(i) && i + |c.chunk| <= |s|
            && Matches(c.rest, s[i + |c.chunk|..])
            && (NoSlash(s) ==> NoSlash(s[i + |c.chunk|..])) && (!SomeSlip(ts) ==> !SomeSlip(c.rest))
  {
    hide Matches, Fits, Slips, FirstCut, NoSlash, Search, SomeSlip;
    var c := FirstCut(ts);
    var n := |c.chunk|;
    SlipCut(ts);
    var j := CutTaken(ts, s);
    if c.rest == [] {
      EmptyMatches(s[j + n..]);
    }
    SearchIsFirst(c.chunk, s, c.rest == [], c.star, j);
    i := Search(c.chunk, s, c.rest == [], c.star).value;
    SearchFits(c.chunk, s, c.rest == [], c.star);
    EarlierWillDo(c, s, i, j);
    NoSlashPart(s, i + n, |s|);
    assert s[i + n..|s|] == s[i + n..];
  }

  /** The library reports every match of a name without '/', and every match of
      any name when no chunk between two stars slips. */
  lemma {:induction false} MatchIsFound(ts: seq<Term>, s: string)
    requires Matches(ts, s) && (NoSlash(s) || !SomeSlip(ts))
    ensures Finds(ts, s)
    decreases |ts|
  {
    hide Matches, FirstCut, NoSlash, Search, SomeSlip;
    if ts == [] {
      EmptyMatches(s);
    } else {
      hide Finds;
      FindsCut(ts, s);
      var c := FirstCut(ts);
      if c.chunk == [] {
        TrailingStar(ts, s);
      } else {
        var i := PlaceFound(ts, s);
        MatchIsFound(c.rest, s[i + |c.chunk|..]);
      }
    }
  }

  lemma StarMoves(ts: seq<Term>, p: string, s: string)
    requires ts != [] && ts[0].Star? && NoSlash(p) && Matches(ts, s)
    ensures Matches(ts, p + s)
  {
    hide Matches;
    var j := StarElim(ts, s);
    StarIntro(ts, p + s[..j], s[j..]);
    assert p + s[..j] + s[j..] == p + s;
  }

  /* ---- When it finds less ---- */

  function Slashes(s: string): nat {
    if s == "" then 0 else (if s[0] == '/' then 1 else 0) + Slashes(s[1..])
  }

  /** How many terms can stand for a '/'. */
  function SlashTerms(ts: seq<Term>): nat {
    if ts == [] then 0 else (if !ts[0].Star? && Accepts(ts[0], '/') then 1 else 0) + SlashTerms(ts[1..])
  }

  /** Some term stands for no character at all. */
  ghost predicate Void(ts: seq<Term>) {
    exists t :: t in ts && !t.Star? && forall c :: !Accepts(t, c)
  }

  lemma {:induction false} SlashesJoin(a: string, b: string)
    ensures Slashes(a + b) == Slashes(a) + Slashes(b)
  {
    if a == "" {
      assert a + b == b;
    } else {
      assert (a + b)[1..] == a[1..] + b;
      SlashesJoin(a[1..], b);
    }
  }

  lemma {:induction false} SlashesSeen(s: string)
    ensures NoSlash(s) <==> Slashes(s) == 0
  {
    if s != "" {
      assert s == [s[0]] + s[1..];
      SlashesSeen(s[1..]);
    }
  }

  lemma {:induction false} MatchSlashes(ts: seq<Term>, s: string)
    requires Matches(ts, s)
    ensures Slashes(s) <= SlashTerms(ts)
    decreases |ts|
  {
    if ts != [] {
      if ts[0].Star? {
        var k := StarElim(ts, s);
        MatchSlashes(ts[1..], s[k..]);
        SlashesSeen(s[..k]);
        SlashesJoin(s[..k], s[k..]);
        assert s == s[..k] + s[k..];
      } else {
        MatchSlashes(ts[1..], s[1..]);
      }
    }
  }

  /** A name with a '/' wherever the terms allow one. */
  lemma {:induction false} Fullest(ts: seq<Term>) returns (s: string)
    requires !Void(ts)
    ensures Matches(ts, s) && Slashes(s) == SlashTerms(ts)
    decreases |ts|
  {
    s := "";
    if ts != [] {
      assert ts == [ts[0]] + ts[1..];
      var rest := Fullest(ts[1..]);
      if ts[0].Star? {
        s := rest;
        StarIntro(ts, "", rest);
        assert "" + rest == rest;
      } else {
        assert ts[0] in ts;
        var c :| Accepts(ts[0], c) && (Accepts(ts[0], '/') ==> c == '/');
        s := [c] + rest;
        assert s[1..] == rest;
      }
    }
  }

  lemma FoundHere(ts: seq<Term>, s: string)
    requires ts != [] && FirstCut(ts).chunk != [] && FirstCut(ts).rest != [] && Fits(FirstCut(ts).chunk, s)
    ensures Finds(ts, s) <==> Finds(FirstCut(ts).rest, s[|FirstCut(ts).chunk|..])
  {
    hide Fits, Search, Finds, FirstCut, Matches;
    var c := FirstCut(ts);
    assert s[0..] == s;
    SearchIsFirst(c.chunk, s, false, c.star, 0);
    FindsCut(ts, s);
  }

  lemma ChunkName(chunk: seq<Term>) returns (w: string)
    requires Starless(chunk) && !Void(chunk)
    ensures Fits(chunk, w) && |w| == |chunk|
  {
    hide Fits, Matches;
    w := Fullest(chunk);
    assert chunk + [] == chunk;
    ChunkMatches(chunk, [], w);
    FitsLength(chunk, w);
    EmptyMatches(w[|chunk|..]);
  }

  /** The second place is a match that the library, at the first, misses. */
  lemma SlipMisses(ts: seq<Term>, d: nat, x: string, rest: string)
    requires ts != [] && FirstCut(ts).star && FirstCut(ts).rest != [] && SlipsOn(FirstCut(ts).chunk, d, x)
    requires Matches(FirstCut(ts).rest, rest) && Slashes(rest) == SlashTerms(FirstCut(ts).rest)
    ensures Matches(ts, x + rest) && !Finds(ts, x + rest)
  {
    hide Matches, Finds, FirstCut, Fits;
    var c := FirstCut(ts);
    var s, n := x + rest, |c.chunk|;
    assert Taken(c, s, d) by {
      assert s[..d] == x[..d] && s[d + n..] == rest;
      FitsPrefix(c.chunk, s[d..], x[d..]);
    }
    CutGiven(ts, s, d);
    FitsPrefix(c.chunk, s, x);
    FoundHere(ts, s);
    assert s[n..] == x[n..] + rest;
    SlashesJoin(x[n..], rest);
    SlashesSeen(x[n..]);
    if Finds(c.rest, s[n..]) {
      FoundIsMatch(c.rest, s[n..]);
      MatchSlashes(c.rest, s[n..]);
    }
  }

  lemma {:induction false} SlipShows(ts: seq<Term>) returns (s: string)
    requires SomeSlip(ts) && !Void(ts)
    ensures Matches(ts, s) && !Finds(ts, s)
    decreases |ts|
  {
    hide Matches, Finds, FirstCut, SlipsOn, Fits;
    var c := FirstCut(ts);
    if c.star && c.rest != [] && Slips(c.chunk) {
      var d: nat, x: string :| SlipsOn(c.chunk, d, x);
      var rest := Fullest(c.rest);
      s := x + rest;
      SlipMisses(ts, d, x, rest);
    } else {
      var n := |c.chunk|;
      var w := ChunkName(c.chunk);
      var rest := SlipShows(c.rest);
      s := w + rest;
      assert s[n..] == rest && s[0..] == s;
      FitsPrefix(c.chunk, s, w);
      CutGiven(ts, s, 0);
      FoundHere(ts, s);
    }
  }

  lemma VoidMatchesNothing(ts: seq<Term>, s: string)
    requires Void(ts)
    ensures !Matches(ts, s)
  {
    hide Matches;
    var t :| t in ts && !t.Star? && forall c :: !Accepts(t, c);
    var k :| 0 <= k < |ts| && ts[k] == t;
    DeadTerm(ts, k, s);
  }

  /** The library keeps its documented promise for every name exactly when no
      chunk between two stars slips, or the pattern matches nothing. */
  lemma FindsExactly(ts: seq<Term>)
    ensures (forall s :: Finds(ts, s) <==> Matches(ts, s)) <==> Void(ts) || !SomeSlip(ts)
  {
    hide Matches, Finds, SomeSlip;
    if Void(ts) || !SomeSlip(ts) {
      forall s
        ensures Finds(ts, s) <==> Matches(ts, s)
      {
        if Void(ts) {
          VoidMatchesNothing(ts, s);
        } else if Matches(ts, s) {
          MatchIsFound(ts, s);
        }
        if Finds(ts, s) {
          FoundIsMatch(ts, s);
        }
      }
    } else {
      var s := SlipShows(ts);
    }
  }

  /* ---- Patterns that are safe at sight ---- */

  /** What can stand for a '/' stands for nothing else. */
  ghost predicate PlainSlashes(ts: seq<Term>) {
    forall t, c :: t in ts && !t.Star? && Accepts(t, '/') && Accepts(t, c) ==> c == '/'
  }

  lemma {:induction false} PlainSlashStays(chunk: seq<Term>, d: nat, x: string, p: nat)
    requires Starless(chunk) && PlainSlashes(chunk) && 0 < d <= |chunk| && |x| == |chunk| + d
    requires Fits(chunk, x) && Fits(chunk, x[d..])
    requires p < |chunk| && Accepts(chunk[p], '/')
    ensures !NoSlash(x[..d])
    decreases p
  {
    assert chunk[p] in chunk && x[p] == '/';
    if p < d {
      assert x[..d][p] == '/';
    } else {
      assert x[d..][p - d] == x[p];
      PlainSlashStays(chunk, d, x, p - d);
    }
  }

  lemma PlainChunkStays(chunk: seq<Term>, d: nat, x: string)
    requires Starless(chunk) && PlainSlashes(chunk)
    ensures !SlipsOn(chunk, d, x)
  {
    hide Fits;
    if SlipsOn(chunk, d, x) {
      var p := SlippedSlash(chunk, d, x);
      PlainSlashStays(chunk, d, x, p);
    }
  }

  lemma {:induction false} PlainSlashesNeverSlip(ts: seq<Term>)
    requires PlainSlashes(ts)
    ensures !SomeSlip(ts)
    decreases |ts|
  {
    hide SlipsOn, FirstCut;
    if ts != [] {
      var c := FirstCut(ts);
      PlainSlashesNeverSlip(c.rest);
      forall d: nat, x: string
        ensures !SlipsOn(c.chunk, d, x)
      {
        PlainChunkStays(c.chunk, d, x);
      }
    }
  }

  lemma SlippedSlash(chunk: seq<Term>, d: nat, x: string) returns (p: nat)
    requires Starless(chunk) && SlipsOn(chunk, d, x)
    ensures p < |chunk| && Accepts(chunk[p], '/')
  {
    var q :| 0 <= q < |x[|chunk|..]| && x[|chunk|..][q] == '/';
    p := q + |chunk| - d;
    assert x[d..][p] == '/';
  }
}
