/** Choosing the definition a reference means (name_matcher.go, and resolveOne
    in resolver.go). */
module NameMatcher {
  import opened Wrappers

  const AMBIGUOUS_CEILING := 80

  datatype Candidate = Candidate(id: int, kind: string, name: string, file: string, hasBody: bool)

  datatype Provenance = Exact | Imported | Proximity | Heuristic

  // The target's id, or nobody.
  datatype Found = Nobody | Target(id: int, provenance: Provenance)

  // filepath.Dir, the storage form of a path, and the files reached through
  // the imports of the referring file, given the candidates' own files.
  datatype Files = Files(dir: string -> string, storage: string -> string, imported: set<string> -> set<string>)

  predicate Callable(kind: string) {
    kind in ["function", "method", "route", "class", "foreign_function"]
  }

  // What a call may mean at all.
  predicate Eligible(c: Candidate, preferCall: bool) {
    preferCall ==> Callable(c.kind)
  }

  // How near the candidate's file is to the reference's.
  function Nearness(f: Files, file: string, from: string): int {
    var fromDir := f.dir(from);
    var fromParent := f.dir(fromDir);
    if file == from then 100
    else if f.dir(file) == fromDir then 50
    else if f.dir(file) == fromParent || f.dir(f.dir(file)) == fromParent then 20
    else 0
  }

  function KindScore(kind: string): int {
    if kind == "function" || kind == "method" then 5 else if kind == "route" then 3 else 0
  }

  function Score(f: Files, c: Candidate, refName: string, from: string): int {
    Nearness(f, c.file, from) + KindScore(c.kind) + (if c.hasBody then 1 else 0) + (if c.name == refName then 2 else 0)
  }

  function ProvenanceOf(f: Files, c: Candidate, from: string): Provenance {
    var n := Nearness(f, c.file, from);
    if n == 100 then Exact else if n > 0 then Proximity else Heuristic
  }

  // c is ahead of every other eligible candidate, with something to its score.
  ghost predicate StandsOut(f: Files, cs: set<Candidate>, refName: string, from: string, preferCall: bool,
                               c: Candidate) {
    && c in cs && Eligible(c, preferCall) && Score(f, c, refName, from) > 0
    && forall d :: d in cs && d != c && Eligible(d, preferCall) ==>
         Score(f, d, refName, from) < Score(f, c, refName, from)
  }

  // A call to one of several names needs more than the faintest signal.
  predicate StrongEnough(f: Files, n: nat, refName: string, from: string, preferCall: bool, c: Candidate) {
    n <= 1 || Score(f, c, refName, from) >= 5 || !preferCall
  }

  ghost predicate Chosen(f: Files, cs: set<Candidate>, refName: string, from: string, preferCall: bool, c: Candidate) {
    StandsOut(f, cs, refName, from, preferCall, c) && StrongEnough(f, |cs|, refName, from, preferCall, c)
  }

  ghost predicate DistinctIds(cs: seq<Candidate>) {
    forall i, j :: 0 <= i < j < |cs| ==> cs[i].id != cs[j].id
  }

  ghost function Members(cs: seq<Candidate>): set<Candidate> {
    set c | c in cs
  }

  lemma {:induction false} MembersCount(cs: seq<Candidate>)
    requires DistinctIds(cs)
    ensures |Members(cs)| == |cs|
  {
    if cs == [] {
      assert Members(cs) == {};
    } else {
      var init, last := cs[..|cs| - 1], cs[|cs| - 1];
      MembersCount(init);
      assert Members(cs) == Members(init) + {last};
      assert last !in init;
    }
  }

  // The answer the candidates as a set determine: the one that is chosen, or
  // nobody when none stands out.
  ghost predicate Answers(f: Files, cs: set<Candidate>, refName: string, from: string, preferCall: bool, r: Found) {
    match r
    case Target(id, p) =>
      exists c :: Chosen(f, cs, refName, from, preferCall, c) && id == c.id && p == ProvenanceOf(f, c, from)
    case Nobody => forall c :: !Chosen(f, cs, refName, from, preferCall, c)
  }

  lemma OneStandsOut(f: Files, cs: set<Candidate>, refName: string, from: string, preferCall: bool,
                     c: Candidate, d: Candidate)
    requires StandsOut(f, cs, refName, from, preferCall, c) && StandsOut(f, cs, refName, from, preferCall, d)
    ensures c == d
  {
  }

  lemma OneAnswer(f: Files, cs: set<Candidate>, refName: string, from: string, preferCall: bool, r: Found, q: Found)
    requires Answers(f, cs, refName, from, preferCall, r) && Answers(f, cs, refName, from, preferCall, q)
    ensures r == q
  {
    hide StandsOut;
    if r.Target? && q.Target? {
      var c :| Chosen(f, cs, refName, from, preferCall, c) && r.id == c.id && r.provenance == ProvenanceOf(f, c, from);
      var d :| Chosen(f, cs, refName, from, preferCall, d) && q.id == d.id && q.provenance == ProvenanceOf(f, d, from);
      OneStandsOut(f, cs, refName, from, preferCall, c, d);
    }
  }

  // The first candidate of the same file, asked for when there are too many.
  ghost predicate FirstHere(cs: seq<Candidate>, from: string, preferCall: bool, i: int) {
    && 0 <= i < |cs| && Here(cs[i], from, preferCall)
    && forall j :: 0 <= j < i ==> !Here(cs[j], from, preferCall)
  }

  predicate Here(c: Candidate, from: string, preferCall: bool) {
    c.file == from && Eligible(c, preferCall)
  }

  // What the loop knows of the candidates before i.
  ghost predicate BestSoFar(f: Files, cs: seq<Candidate>, i: nat, refName: string, from: string, preferCall: bool,
                            best: Found, score: int, count: int, at: int)
    requires i <= |cs|
  {
    && score >= 0 && count >= 0
    && (forall j :: 0 <= j < i && Eligible(cs[j], preferCall) ==> Score(f, cs[j], refName, from) <= score)
    && (score == 0 <==> count == 0)
    && (count == 0 <==> best == Nobody)
    && (count > 0 ==> 0 <= at < i && Eligible(cs[at], preferCall) && Score(f, cs[at], refName, from) == score
                      && best == Target(cs[at].id, ProvenanceOf(f, cs[at], from)))
    && (count == 1 ==> forall j :: 0 <= j < i && j != at && Eligible(cs[j], preferCall) ==>
                        Score(f, cs[j], refName, from) < score)
    && (count > 1 ==> exists j :: TiesAt(f, cs, i, refName, from, preferCall, score, at, j))
  }

  ghost predicate TiesAt(f: Files, cs: seq<Candidate>, i: nat, refName: string, from: string, preferCall: bool,
                         score: int, at: int, j: int)
    requires i <= |cs|
  {
    0 <= j < i && j != at && Eligible(cs[j], preferCall) && Score(f, cs[j], refName, from) == score
  }

  method MatchName(f: Files, cs: seq<Candidate>, refName: string, from: string, preferCall: bool) returns (r: Found)
    ensures |cs| <= AMBIGUOUS_CEILING && DistinctIds(cs) ==>
              && Answers(f, Members(cs), refName, from, preferCall, r)
              && NamesTheWinner(f, Members(cs), refName, from, preferCall, r)
    ensures |cs| > AMBIGUOUS_CEILING ==>
              if r == Nobody then forall i :: 0 <= i < |cs| ==> !Here(cs[i], from, preferCall)
              else exists i :: FirstHere(cs, from, preferCall, i) && r == Target(cs[i].id, Exact)
  {
    hide Answers, NamesTheWinner;
    if |cs| == 0 {
      NobodyAmongNone(f, cs, refName, from, preferCall);
      return Nobody;
    }
    if |cs| > AMBIGUOUS_CEILING {
      for i := 0 to |cs|
        invariant forall j :: 0 <= j < i ==> !Here(cs[j], from, preferCall)
      {
        if cs[i].file == from && (!preferCall || Callable(cs[i].kind)) {
          assert FirstHere(cs, from, preferCall, i);
          return Target(cs[i].id, Exact);
        }
      }
      return Nobody;
    }
    var best, bestScore, bestCount := Nobody, 0, 0;
    ghost var at := 0;
    for i := 0 to |cs|
      invariant BestSoFar(f, cs, i, refName, from, preferCall, best, bestScore, bestCount, at)
    {
      hide BestSoFar, Score, ProvenanceOf;
      BestStep(f, cs, i, refName, from, preferCall, best, bestScore, bestCount, at);
      var c := cs[i];
      if !preferCall || Callable(c.kind) {
        var score := Score(f, c, refName, from);
        if score > bestScore {
          best, bestScore, bestCount := Target(c.id, ProvenanceOf(f, c, from)), score, 1;
          at := i;
        } else if score == bestScore && score > 0 {
          bestCount := bestCount + 1;
        }
      }
    }
    if DistinctIds(cs) {
      LoopDecides(f, cs, refName, from, preferCall, best, bestScore, bestCount, at);
    }
    if bestCount > 1 {
      return Nobody;
    }
    if |cs| > 1 && bestScore < 5 && preferCall {
      return Nobody;
    }
    return best;
  }

  // One more candidate: it leads, it ties, or it changes nothing.
  lemma BestStep(f: Files, cs: seq<Candidate>, i: nat, refName: string, from: string, preferCall: bool,
                 best: Found, score: int, count: int, at: int)
    requires i < |cs| && BestSoFar(f, cs, i, refName, from, preferCall, best, score, count, at)
    ensures var c, s := cs[i], Score(f, cs[i], refName, from);
            if !Eligible(c, preferCall) || s < score || s <= 0 then
              BestSoFar(f, cs, i + 1, refName, from, preferCall, best, score, count, at)
            else if s == score then
              BestSoFar(f, cs, i + 1, refName, from, preferCall, best, score, count + 1, at)
            else
              BestSoFar(f, cs, i + 1, refName, from, preferCall, Target(c.id, ProvenanceOf(f, c, from)), s, 1, i)
  {
    hide Score, ProvenanceOf;
    if count > 1 {
      var j :| TiesAt(f, cs, i, refName, from, preferCall, score, at, j);
      assert TiesAt(f, cs, i + 1, refName, from, preferCall, score, at, j);
    }
    if count > 0 && Eligible(cs[i], preferCall) && Score(f, cs[i], refName, from) == score {
      assert TiesAt(f, cs, i + 1, refName, from, preferCall, score, at, i);
    }
  }

  lemma NobodyAmongNone(f: Files, cs: seq<Candidate>, refName: string, from: string, preferCall: bool)
    requires cs == []
    ensures Answers(f, Members(cs), refName, from, preferCall, Nobody)
    ensures NamesTheWinner(f, Members(cs), refName, from, preferCall, Nobody)
  {
  }

  lemma TieDecidesNothing(f: Files, cs: seq<Candidate>, refName: string, from: string, preferCall: bool,
                         score: int, at: int)
    requires DistinctIds(cs) && 0 <= at < |cs| && Eligible(cs[at], preferCall)
             && Score(f, cs[at], refName, from) == score
    requires forall j :: 0 <= j < |cs| && Eligible(cs[j], preferCall) ==> Score(f, cs[j], refName, from) <= score
    requires exists j :: TiesAt(f, cs, |cs|, refName, from, preferCall, score, at, j)
    ensures forall c :: !StandsOut(f, Members(cs), refName, from, preferCall, c)
  {
    hide Score;
    var j :| TiesAt(f, cs, |cs|, refName, from, preferCall, score, at, j);
    assert cs[at] in Members(cs) && cs[j] in Members(cs) && cs[at] != cs[j];
  }

  lemma LoopDecides(f: Files, cs: seq<Candidate>, refName: string, from: string, preferCall: bool,
                    best: Found, score: int, count: int, at: int)
    requires DistinctIds(cs) && BestSoFar(f, cs, |cs|, refName, from, preferCall, best, score, count, at)
    ensures Answers(f, Members(cs), refName, from, preferCall,
                    if count > 1 || (|cs| > 1 && score < 5 && preferCall) then Nobody else best)
    ensures NamesTheWinner(f, Members(cs), refName, from, preferCall,
                           if count > 1 || (|cs| > 1 && score < 5 && preferCall) then Nobody else best)
  {
    hide Score, ProvenanceOf, NamesTheWinner;
    MembersCount(cs);
    var m := Members(cs);
    if count > 1 {
      TieDecidesNothing(f, cs, refName, from, preferCall, score, at);
    } else if count == 1 {
      assert cs[at] in m;
      assert forall c :: StandsOut(f, m, refName, from, preferCall, c) ==> c == cs[at];
      assert StandsOut(f, m, refName, from, preferCall, cs[at]);
      assert StrongEnough(f, |cs|, refName, from, preferCall, cs[at]) ==>
               Chosen(f, m, refName, from, preferCall, cs[at]);
    }
    PlaceThenMeritDecides(f, m, refName, from, preferCall,
                          if count > 1 || (|cs| > 1 && score < 5 && preferCall) then Nobody else best);
  }

  // Up to the ceiling the order of the candidates does not matter, and a tie
  // at the top is nobody's.
  lemma OrderDoesNotMatter(f: Files, a: seq<Candidate>, b: seq<Candidate>, refName: string, from: string,
                           preferCall: bool,
                           r: Found, q: Found)
    requires multiset(a) == multiset(b)
    requires Answers(f, Members(a), refName, from, preferCall, r)
             && Answers(f, Members(b), refName, from, preferCall, q)
    ensures r == q
  {
    assert forall c :: c in a <==> c in multiset(a);
    assert forall c :: c in b <==> c in multiset(b);
    assert Members(a) == Members(b);
    OneAnswer(f, Members(a), refName, from, preferCall, r, q);
  }

  lemma TiedCandidatesAreRefused(f: Files, cs: set<Candidate>, refName: string, from: string, preferCall: bool,
                                 c: Candidate, d: Candidate, r: Found)
    requires c in cs && d in cs && c != d && Eligible(c, preferCall) && Eligible(d, preferCall)
    requires Score(f, c, refName, from) == Score(f, d, refName, from)
    requires forall e :: e in cs && Eligible(e, preferCall) ==> Score(f, e, refName, from) <= Score(f, c, refName, from)
    requires Answers(f, cs, refName, from, preferCall, r)
    ensures r == Nobody
  {
    hide Score, ProvenanceOf;
  }

  // ---- Place first, then merit -----------------------------------------------------------------

  // Same file, same directory, the directory above or beside it: each place
  // holds the ones before.
  predicate InFile(c: Candidate, from: string) {
    c.file == from
  }

  predicate InDirectory(f: Files, c: Candidate, from: string) {
    f.dir(c.file) == f.dir(from)
  }

  predicate Around(f: Files, c: Candidate, from: string) {
    f.dir(c.file) == f.dir(f.dir(from)) || f.dir(f.dir(c.file)) == f.dir(f.dir(from))
  }

  predicate Nearer(f: Files, from: string, c: Candidate, d: Candidate) {
    || (InFile(c, from) && !InFile(d, from))
    || (InDirectory(f, c, from) && !InDirectory(f, d, from))
    || (Around(f, c, from) && !Around(f, d, from))
  }

  predicate AsNear(f: Files, from: string, c: Candidate, d: Candidate) {
    !Nearer(f, from, c, d) && !Nearer(f, from, d, c)
  }

  // The order among candidates that are equally near, by kind, exactness of the
  // name, and body.
  function Merit(kind: string, exact: bool, body: bool): nat {
    match kind
    case "function" => if exact then (if body then 8 else 7) else if body then 6 else 5
    case "method" => if exact then (if body then 8 else 7) else if body then 6 else 5
    case "route" => if exact then (if body then 6 else 5) else if body then 4 else 3
    case _ => if exact then (if body then 3 else 2) else if body then 1 else 0
  }

  function MeritOf(c: Candidate, refName: string): nat {
    Merit(c.kind, c.name == refName, c.hasBody)
  }

  predicate Beats(f: Files, refName: string, from: string, c: Candidate, d: Candidate) {
    Nearer(f, from, c, d) || (AsNear(f, from, c, d) && MeritOf(c, refName) > MeritOf(d, refName))
  }

  // c may be meant, beats everybody else who may, and has something for it: a
  // place near by, or merit, and for a call among several merit enough.
  ghost predicate Wins(f: Files, cs: set<Candidate>, refName: string, from: string, preferCall: bool, c: Candidate) {
    && c in cs && (preferCall ==> c.kind in ["function", "method", "route", "class", "foreign_function"])
    && (forall d :: d in cs && d != c &&
         (preferCall ==> d.kind in ["function", "method", "route", "class", "foreign_function"])
         ==> Beats(f, refName, from, c, d))
    && (Around(f, c, from) || MeritOf(c, refName) >= if |cs| > 1 && preferCall then 5 else 1)
  }

  ghost predicate NamesTheWinner(f: Files, cs: set<Candidate>, refName: string, from: string,
                                 preferCall: bool, r: Found) {
    && (r.Target? <==> exists c :: Wins(f, cs, refName, from, preferCall, c))
    && forall c :: Wins(f, cs, refName, from, preferCall, c) ==>
         r == Target(c.id, if InFile(c, from) then Exact else if Around(f, c, from) then Proximity else Heuristic)
  }

  lemma ScoreOrders(f: Files, refName: string, from: string, c: Candidate, d: Candidate)
    ensures Score(f, c, refName, from) > Score(f, d, refName, from) <==> Beats(f, refName, from, c, d)
    ensures InFile(c, from) ==> InDirectory(f, c, from)
    ensures InDirectory(f, c, from) ==> Around(f, c, from)
    ensures Score(f, c, refName, from) == Nearness(f, c.file, from) + MeritOf(c, refName)
    ensures Nearness(f, c.file, from) == if InFile(c, from) then 100 else if InDirectory(f, c, from) then 50
                                         else if Around(f, c, from) then 20 else 0
  {
  }

  lemma ChosenWins(f: Files, cs: set<Candidate>, refName: string, from: string, preferCall: bool, c: Candidate)
    ensures Chosen(f, cs, refName, from, preferCall, c) <==> Wins(f, cs, refName, from, preferCall, c)
  {
    hide Score, Nearness, Beats, MeritOf, Around, InDirectory, InFile;
    forall d
      ensures Score(f, c, refName, from) > Score(f, d, refName, from) <==> Beats(f, refName, from, c, d)
    {
      ScoreOrders(f, refName, from, c, d);
    }
    ScoreOrders(f, refName, from, c, c);
  }

  // The answer is the one that wins, with the provenance of its place; there is
  // none exactly when nobody wins. So the only one in the file is taken before
  // anyone outside it, then the only one in the directory, then around it, and
  // among equals in place merit decides.
  lemma PlaceThenMeritDecides(f: Files, cs: set<Candidate>, refName: string, from: string, preferCall: bool, r: Found)
    requires Answers(f, cs, refName, from, preferCall, r)
    ensures NamesTheWinner(f, cs, refName, from, preferCall, r)
  {
    hide Score, Nearness, Beats, MeritOf, Chosen, Wins;
    forall c
      ensures Chosen(f, cs, refName, from, preferCall, c) <==> Wins(f, cs, refName, from, preferCall, c)
      ensures ProvenanceOf(f, c, from)
           == if InFile(c, from) then Exact else if Around(f, c, from) then Proximity else Heuristic
    {
      ChosenWins(f, cs, refName, from, preferCall, c);
      ScoreOrders(f, refName, from, c, c);
    }
    forall c, d | Chosen(f, cs, refName, from, preferCall, c) && Chosen(f, cs, refName, from, preferCall, d)
      ensures c == d
    {
      ChosenStandsOut(f, cs, refName, from, preferCall, c);
      ChosenStandsOut(f, cs, refName, from, preferCall, d);
      OneStandsOut(f, cs, refName, from, preferCall, c, d);
    }
  }

  lemma ChosenStandsOut(f: Files, cs: set<Candidate>, refName: string, from: string, preferCall: bool, c: Candidate)
    requires Chosen(f, cs, refName, from, preferCall, c)
    ensures StandsOut(f, cs, refName, from, preferCall, c)
  {
  }

  // ---- Above the ceiling ---------------------------------------------------------------------

  // What MatchName answers for more candidates than the ceiling.
  ghost predicate AnswersCrowd(cs: seq<Candidate>, from: string, preferCall: bool, r: Found) {
    if r == Nobody then forall i :: 0 <= i < |cs| ==> !Here(cs[i], from, preferCall)
    else exists i :: FirstHere(cs, from, preferCall, i) && r == Target(cs[i].id, Exact)
  }

  lemma CrowdAnswers(cs: seq<Candidate>, from: string, preferCall: bool) returns (r: Found)
    ensures AnswersCrowd(cs, from, preferCall, r)
  {
    var i := 0;
    while i < |cs| && !Here(cs[i], from, preferCall)
      invariant 0 <= i <= |cs|
      invariant forall j :: 0 <= j < i ==> !Here(cs[j], from, preferCall)
    {
      i := i + 1;
    }
    if i < |cs| {
      assert FirstHere(cs, from, preferCall, i);
      r := Target(cs[i].id, Exact);
    } else {
      r := Nobody;
    }
  }

  // However the same candidates are ordered, the answer is one.
  ghost predicate OneAnswerInAnyOrder(cs: seq<Candidate>, from: string, preferCall: bool) {
    forall b, r, q ::
      multiset(b) == multiset(cs) && AnswersCrowd(cs, from, preferCall, r) && AnswersCrowd(b, from, preferCall, q)
      ==> r == q
  }

  ghost predicate AtMostOneHere(cs: seq<Candidate>, from: string, preferCall: bool) {
    forall i, j :: 0 <= i < j < |cs| ==> !(Here(cs[i], from, preferCall) && Here(cs[j], from, preferCall))
  }

  // There the order decides exactly when the file itself has two candidates.
  lemma CrowdDependsOnOrderExactly(cs: seq<Candidate>, from: string, preferCall: bool)
    requires DistinctIds(cs)
    ensures OneAnswerInAnyOrder(cs, from, preferCall) <==> AtMostOneHere(cs, from, preferCall)
  {
    hide Here, AnswersCrowd;
    if i, j :| 0 <= i < j < |cs| && Here(cs[i], from, preferCall) && Here(cs[j], from, preferCall) {
      var r := CrowdAnswers(cs, from, preferCall);
      var k := if r == Target(cs[i].id, Exact) then j else i;
      MovedToFront(cs, k);
      FrontIsFirst(MoveToFront(cs, k), from, preferCall);
    } else {
      forall b, r, q | multiset(b) == multiset(cs) && AnswersCrowd(cs, from, preferCall, r)
                       && AnswersCrowd(b, from, preferCall, q)
        ensures r == q
      {
        OneHereIsFirst(cs, b, from, preferCall, r, q);
      }
    }
  }

  function MoveToFront(cs: seq<Candidate>, k: nat): seq<Candidate>
    requires k < |cs|
  {
    [cs[k]] + (cs[..k] + cs[k + 1..])
  }

  lemma MovedToFront(cs: seq<Candidate>, k: nat)
    requires k < |cs|
    ensures multiset(MoveToFront(cs, k)) == multiset(cs) && MoveToFront(cs, k)[0] == cs[k]
  {
    assert cs == cs[..k] + ([cs[k]] + cs[k + 1..]);
  }

  lemma FrontIsFirst(cs: seq<Candidate>, from: string, preferCall: bool)
    requires cs != [] && Here(cs[0], from, preferCall)
    ensures AnswersCrowd(cs, from, preferCall, Target(cs[0].id, Exact))
  {
    assert FirstHere(cs, from, preferCall, 0);
  }

  lemma OneHereIsFirst(cs: seq<Candidate>, b: seq<Candidate>, from: string, preferCall: bool, r: Found, q: Found)
    requires DistinctIds(cs) && multiset(b) == multiset(cs)
    requires AtMostOneHere(cs, from, preferCall)
    requires AnswersCrowd(cs, from, preferCall, r) && AnswersCrowd(b, from, preferCall, q)
    ensures r == q
  {
    hide Here;
    assert forall c :: c in b <==> c in multiset(b);
    assert forall c :: c in cs <==> c in multiset(cs);
    if q != Nobody {
      var k :| FirstHere(b, from, preferCall, k) && q == Target(b[k].id, Exact);
      assert b[k] in cs;
    }
    if r != Nobody {
      var k :| FirstHere(cs, from, preferCall, k) && r == Target(cs[k].id, Exact);
      assert cs[k] in b;
    }
  }

  // ---- resolveOne ---------------------------------------------------------------------------------

  datatype Query = Query(fromNode: int, name: string, kind: string, file: string)

  datatype Resolution = Unresolved | Resolved(target: int, kind: string, provenance: Provenance)

  function KindOf(q: Query): string {
    if q.kind == "" then "calls" else q.kind
  }

  predicate CallLike(kind: string) {
    kind in ["calls", "references", "bridge"]
  }

  predicate Reached(f: Files, files: set<string>, c: Candidate) {
    c.file in f.imported(files) || f.storage(c.file) in f.imported(files)
  }

  ghost function FilesOf(cs: set<Candidate>): set<string> {
    set c | c in cs :: c.file
  }

  ghost function ReachedOf(f: Files, cs: set<Candidate>): set<Candidate> {
    set c | c in cs && Reached(f, FilesOf(cs), c)
  }

  // FilterByImports: the candidates in files the referring file imports.
  method FilterByImports(f: Files, cs: seq<Candidate>) returns (hit: seq<Candidate>, ok: bool)
    requires DistinctIds(cs)
    ensures ok <==> ReachedOf(f, Members(cs)) != {}
    ensures ok ==> Members(hit) == ReachedOf(f, Members(cs)) && DistinctIds(hit) && |hit| <= |cs|
  {
    hide Reached;
    var files := set c | c in cs :: c.file;
    assert files == FilesOf(Members(cs));
    hit := [];
    for i := 0 to |cs|
      invariant forall c :: c in hit <==> c in cs[..i] && Reached(f, files, c)
      invariant DistinctIds(hit) && |hit| <= i
    {
      assert cs[..i + 1] == cs[..i] + [cs[i]];
      assert forall c :: c in hit ==> c in cs[..i] && c.id != cs[i].id;
      if Reached(f, files, cs[i]) {
        hit := hit + [cs[i]];
      }
    }
    assert cs[..|cs|] == cs;
    assert Members(hit) == ReachedOf(f, Members(cs));
    ok := |hit| > 0;
    assert ok ==> hit[0] in Members(hit);
    assert !ok ==> Members(hit) == {};
  }

  ghost function Others(q: Query, cs: set<Candidate>): set<Candidate> {
    set c | c in cs && c.id != q.fromNode
  }

  ghost predicate OnlyCallable(cs: set<Candidate>, c: Candidate) {
    c in cs && Callable(c.kind) && forall d :: d in cs && Callable(d.kind) ==> d == c
  }

  // How a lone callable may be taken: imported, in the same directory, or one
  // directory below.
  ghost predicate TakesLone(f: Files, q: Query, c: Candidate, p: Provenance) {
    if ReachedOf(f, {c}) != {} then p == Imported
    else p == Heuristic && (f.dir(c.file) == f.dir(q.file) || f.dir(f.dir(c.file)) == f.dir(q.file))
  }

  predicate Settles(q: Query, m: Found) {
    m.Target? && !(m.provenance == Heuristic && CallLike(KindOf(q)))
  }

  // The outcome once the two matches are known: the match among the imported,
  // else a settled match among all others, else a lone callable near enough.
  ghost predicate Outcome(f: Files, q: Query, others: set<Candidate>, near: Found, any: Found, r: Resolution) {
    if near.Target? then r == Resolved(near.id, KindOf(q), Imported)
    else if Settles(q, any) then r == Resolved(any.id, KindOf(q), any.provenance)
    else if CallLike(KindOf(q)) && exists c, p :: OnlyCallable(others, c) && TakesLone(f, q, c, p) then
      exists c, p :: OnlyCallable(others, c) && TakesLone(f, q, c, p) && r == Resolved(c.id, KindOf(q), p)
    else r == Unresolved
  }

  ghost predicate Decides(f: Files, q: Query, cs: set<Candidate>, r: Resolution) {
    var others := Others(q, cs);
    if q.fromNode == 0 || q.name == "" || others == {} then
      r == Unresolved
    else
      exists near, any ::
        && (if ReachedOf(f, others) == {} then near == Nobody
            else Answers(f, ReachedOf(f, others), q.name, q.file, CallLike(KindOf(q)), near))
        && Answers(f, others, q.name, q.file, CallLike(KindOf(q)), any)
        && Outcome(f, q, others, near, any, r)
  }

  // ---- The same, spelled out --------------------------------------------------------------------

  const CALLABLES := ["function", "method", "route", "class", "foreign_function"]

  function EdgeKind(q: Query): string {
    if q.kind != "" then q.kind else "calls"
  }

  predicate ForCall(q: Query) {
    q.kind == "" || q.kind == "calls" || q.kind == "references" || q.kind == "bridge"
  }

  // The candidates in files the referring file imports, by either spelling.
  ghost function Imports(f: Files, cs: set<Candidate>): set<Candidate> {
    var files := set c | c in cs :: c.file;
    set c | c in cs && (f.storage(c.file) in f.imported(files) || c.file in f.imported(files))
  }

  ghost predicate OnlyOne(cs: set<Candidate>, c: Candidate) {
    c in cs && c.kind in CALLABLES && forall d :: d in cs && d != c ==> d.kind !in CALLABLES
  }

  ghost predicate WinsFor(f: Files, q: Query, cs: set<Candidate>, c: Candidate) {
    Wins(f, cs, q.name, q.file, ForCall(q), c)
  }

  // A call does not settle for somebody far away.
  predicate NearEnough(f: Files, q: Query, c: Candidate) {
    !ForCall(q) || c.file == q.file || Around(f, c, q.file)
  }

  // Who is meant, among the others: the winner among the imported; else the
  // winner among all, near enough; else, for a call, the only callable there
  // is, if imported, in the same directory, or one below; else nobody.
  ghost predicate Spelled(f: Files, q: Query, others: set<Candidate>, r: Resolution) {
    if c :| WinsFor(f, q, Imports(f, others), c) then
      r == Resolved(c.id, EdgeKind(q), Imported)
    else if c :| WinsFor(f, q, others, c) && NearEnough(f, q, c) then
      r == Resolved(c.id, EdgeKind(q),
               if c.file == q.file then Exact else if Around(f, c, q.file) then Proximity else Heuristic)
    else if c :| ForCall(q) && OnlyOne(others, c) then
      if Imports(f, {c}) != {} then r == Resolved(c.id, EdgeKind(q), Imported)
      else if f.dir(c.file) == f.dir(q.file) || f.dir(f.dir(c.file)) == f.dir(q.file) then
        r == Resolved(c.id, EdgeKind(q), Heuristic)
      else r == Unresolved
    else r == Unresolved
  }

  lemma OneWinner(f: Files, q: Query, cs: set<Candidate>, c: Candidate, d: Candidate)
    requires WinsFor(f, q, cs, c) && WinsFor(f, q, cs, d)
    ensures c == d
  {
    ScoreOrders(f, q.name, q.file, c, d);
    ScoreOrders(f, q.name, q.file, d, c);
    hide Beats, Score;
  }

  lemma SameWords(f: Files, q: Query, cs: set<Candidate>)
    ensures EdgeKind(q) == KindOf(q) && ForCall(q) == CallLike(KindOf(q))
    ensures Imports(f, cs) == ReachedOf(f, cs)
    ensures forall c :: OnlyOne(cs, c) <==> OnlyCallable(cs, c)
    ensures forall c :: InFile(c, q.file) ==> Around(f, c, q.file)
  {
    assert FilesOf(cs) == set c | c in cs :: c.file;
  }

  lemma SpelledAnswer(f: Files, q: Query, cs: set<Candidate>, m: Found)
    requires Answers(f, cs, q.name, q.file, CallLike(KindOf(q)), m)
    ensures m.Target? <==> exists c :: WinsFor(f, q, cs, c)
    ensures forall c :: WinsFor(f, q, cs, c) ==>
              && m == Target(c.id,
                            if c.file == q.file then Exact else if Around(f, c, q.file) then Proximity else Heuristic)
              && (Settles(q, m) <==> NearEnough(f, q, c))
  {
    SameWords(f, q, cs);
    PlaceThenMeritDecides(f, cs, q.name, q.file, CallLike(KindOf(q)), m);
    assert forall c :: WinsFor(f, q, cs, c) <==> Wins(f, cs, q.name, q.file, CallLike(KindOf(q)), c);
    hide Wins, WinsFor, Answers, Around, KindOf, CallLike, ForCall;
  }

  lemma DecidesSpelled(f: Files, q: Query, cs: set<Candidate>, r: Resolution)
    requires Decides(f, q, cs, r) && q.fromNode != 0 && q.name != ""
    ensures var others := set c | c in cs && c.id != q.fromNode;
            if others == {} then r == Unresolved else Spelled(f, q, others, r)
  {
    var others := Others(q, cs);
    assert others == set c | c in cs && c.id != q.fromNode;
    if others != {} {
      hide Answers, Wins, KindOf, CallLike, ForCall, EdgeKind, Around;
      var near, any :|
        && (if ReachedOf(f, others) == {} then near == Nobody
            else Answers(f, ReachedOf(f, others), q.name, q.file, CallLike(KindOf(q)), near))
        && Answers(f, others, q.name, q.file, CallLike(KindOf(q)), any)
        && Outcome(f, q, others, near, any, r);
      OutcomeSpelled(f, q, others, near, any, r);
    }
  }

  lemma WinnersAreOne(f: Files, q: Query, cs: set<Candidate>)
    ensures forall c, d :: WinsFor(f, q, cs, c) && WinsFor(f, q, cs, d) ==> c == d
  {
    forall c, d | WinsFor(f, q, cs, c) && WinsFor(f, q, cs, d)
      ensures c == d
    {
      OneWinner(f, q, cs, c, d);
    }
  }

  lemma ImportsOfOne(f: Files, q: Query)
    ensures forall c :: Imports(f, {c}) == ReachedOf(f, {c})
  {
    forall c
      ensures Imports(f, {c}) == ReachedOf(f, {c})
    {
      SameWords(f, q, {c});
    }
  }

  lemma OnlyOneIsOne(cs: set<Candidate>)
    ensures forall c, d :: OnlyOne(cs, c) && OnlyOne(cs, d) ==> c == d
  {
  }

  lemma NobodyWinsNothing(f: Files, q: Query)
    ensures forall c :: !WinsFor(f, q, {}, c)
  {
  }

  lemma OutcomeSpelled(f: Files, q: Query, others: set<Candidate>, near: Found, any: Found, r: Resolution)
    requires if ReachedOf(f, others) == {} then near == Nobody
             else Answers(f, ReachedOf(f, others), q.name, q.file, CallLike(KindOf(q)), near)
    requires Answers(f, others, q.name, q.file, CallLike(KindOf(q)), any) && Outcome(f, q, others, near, any, r)
    ensures Spelled(f, q, others, r)
  {
    hide Answers, WinsFor, NearEnough, KindOf, CallLike, ForCall, EdgeKind, Around, ReachedOf, Imports, OnlyCallable,
         OnlyOne;
    SameWords(f, q, others);
    NobodyWinsNothing(f, q);
    if ReachedOf(f, others) != {} {
      SpelledAnswer(f, q, ReachedOf(f, others), near);
    }
    SpelledAnswer(f, q, others, any);
    WinnersAreOne(f, q, others);
    WinnersAreOne(f, q, Imports(f, others));
    ImportsOfOne(f, q);
    OnlyOneIsOne(others);
    if near.Target? {
      assert exists c :: WinsFor(f, q, Imports(f, others), c);
    } else {
      assert forall c :: !WinsFor(f, q, Imports(f, others), c);
      if Settles(q, any) {
        var c :| WinsFor(f, q, others, c);
        assert NearEnough(f, q, c);
      } else {
        assert forall c :: !(WinsFor(f, q, others, c) && NearEnough(f, q, c));
        LoneSpelled(f, q, others, r);
      }
    }
  }

  // What is left when nobody wins: the only callable.
  lemma LoneSpelled(f: Files, q: Query, others: set<Candidate>, r: Resolution)
    requires forall c :: Imports(f, {c}) == ReachedOf(f, {c})
    requires forall c :: OnlyOne(others, c) <==> OnlyCallable(others, c)
    requires forall c, d :: OnlyOne(others, c) && OnlyOne(others, d) ==> c == d
    requires EdgeKind(q) == KindOf(q) && ForCall(q) == CallLike(KindOf(q))
    requires if CallLike(KindOf(q)) && exists c, p :: OnlyCallable(others, c) && TakesLone(f, q, c, p) then
               exists c, p :: OnlyCallable(others, c) && TakesLone(f, q, c, p) && r == Resolved(c.id, KindOf(q), p)
             else r == Unresolved
    ensures if c :| ForCall(q) && OnlyOne(others, c) then
              if Imports(f, {c}) != {} then r == Resolved(c.id, EdgeKind(q), Imported)
              else if f.dir(c.file) == f.dir(q.file) || f.dir(f.dir(c.file)) == f.dir(q.file) then
                r == Resolved(c.id, EdgeKind(q), Heuristic)
              else r == Unresolved
            else r == Unresolved
  {
    hide KindOf, CallLike, ForCall, EdgeKind, ReachedOf, Imports, OnlyCallable, OnlyOne;
    if c :| ForCall(q) && OnlyOne(others, c) {
      var p := if ReachedOf(f, {c}) != {} then Imported else Heuristic;
      assert (exists p :: TakesLone(f, q, c, p)) <==> TakesLone(f, q, c, p);
      assert forall p' :: TakesLone(f, q, c, p') ==> p' == p;
      assert TakesLone(f, q, c, p) <==>
               ReachedOf(f, {c}) != {} || f.dir(c.file) == f.dir(q.file) || f.dir(f.dir(c.file)) == f.dir(q.file);
    }
  }

  method WithoutSelf(q: Query, cs: seq<Candidate>) returns (others: seq<Candidate>)
    requires DistinctIds(cs)
    ensures Members(others) == Others(q, Members(cs)) && DistinctIds(others) && |others| <= |cs|
  {
    others := [];
    for i := 0 to |cs|
      invariant forall c :: c in others <==> c in cs[..i] && c.id != q.fromNode
      invariant DistinctIds(others) && |others| <= i
    {
      assert cs[..i + 1] == cs[..i] + [cs[i]];
      assert forall c :: c in others ==> c in cs[..i] && c.id != cs[i].id;
      if cs[i].id != q.fromNode {
        others := others + [cs[i]];
      }
    }
    assert cs[..|cs|] == cs;
    assert Members(others) == Others(q, Members(cs));
  }

  method LoneCallable(cs: seq<Candidate>) returns (lone: Option<Candidate>)
    requires DistinctIds(cs)
    ensures lone.Some? ==> OnlyCallable(Members(cs), lone.value)
    ensures lone == None ==> forall c :: !OnlyCallable(Members(cs), c)
  {
    var callables: seq<Candidate> := [];
    for i := 0 to |cs|
      invariant forall c :: c in callables <==> c in cs[..i] && Callable(c.kind)
      invariant DistinctIds(callables)
    {
      assert cs[..i + 1] == cs[..i] + [cs[i]];
      assert forall c :: c in callables ==> c in cs[..i] && c.id != cs[i].id;
      if Callable(cs[i].kind) {
        callables := callables + [cs[i]];
      }
    }
    assert cs[..|cs|] == cs;
    assert forall k :: 0 <= k < |callables| ==> callables[k] in callables;
    if |callables| == 1 {
      assert forall c :: c in callables ==> c == callables[0];
      return Some(callables[0]);
    }
    lone := None;
    if |callables| > 1 {
      assert callables[0] in Members(cs) && callables[1] in Members(cs) && callables[0] != callables[1];
    }
  }

  // resolver.go: what one reference resolves to. Up to the ceiling the answer
  // is a matter of the candidates as a set; for any number of them it is
  // never the referring node itself, nor, for a call, something not callable.
  method ResolveOne(f: Files, q: Query, cs: seq<Candidate>) returns (r: Resolution)
    requires DistinctIds(cs)
    ensures |cs| <= AMBIGUOUS_CEILING ==> Decides(f, q, Members(cs), r)
    ensures |cs| <= AMBIGUOUS_CEILING && q.fromNode != 0 && q.name != "" ==>
              var others := set c | c in Members(cs) && c.id != q.fromNode;
              if others == {} then r == Unresolved else Spelled(f, q, others, r)
    ensures q.fromNode == 0 || q.name == "" ==> r == Unresolved
    ensures r.Resolved? ==>
              && r.kind == (if q.kind == "" then "calls" else q.kind)
              && exists c :: c in cs && c.id == r.target && c.id != q.fromNode
                   && (q.kind in ["", "calls", "references", "bridge"] ==>
                         c.kind in ["function", "method", "route", "class", "foreign_function"])
  {
    hide Spelled;
    hide Answers, ReachedOf, OnlyCallable, TakesLone, FirstHere;
    if q.fromNode == 0 || q.name == "" || |cs| == 0 {
      assert |cs| == 0 ==> Others(q, Members(cs)) == {};
      return Unresolved;
    }
    var kind := KindOf(q);
    var preferCall := CallLike(kind);
    var others := WithoutSelf(q, cs);
    ghost var set_ := Members(others);
    if |others| == 0 {
      assert set_ == {};
      return Unresolved;
    }
    assert others[0] in set_;
    var near := Nobody;
    var imp, ok := FilterByImports(f, others);
    if ok {
      near := MatchName(f, imp, q.name, q.file, preferCall);
      if near.Target? {
        ReachedIsPart(f, set_);
        TargetIsCandidate(f, imp, q.name, q.file, preferCall, near);
      }
    }
    var any := MatchName(f, others, q.name, q.file, preferCall);
    if any.Target? {
      TargetIsCandidate(f, others, q.name, q.file, preferCall, any);
    }
    if near.Target? {
      r := Resolved(near.id, kind, Imported);
    } else if Settles(q, any) {
      r := Resolved(any.id, kind, any.provenance);
    } else {
      r := Unresolved;
      if preferCall {
        var lone := LoneCallable(others);
        if lone.Some? {
          r := TakeLone(f, q, set_, lone.value);
        }
      }
    }
    assert Outcome(f, q, set_, near, any, r);
    if |cs| <= AMBIGUOUS_CEILING {
      DecidesSpelled(f, q, Members(cs), r);
    }
  }

  lemma ReachedIsPart(f: Files, cs: set<Candidate>)
    ensures ReachedOf(f, cs) <= cs
  {
  }

  // Whatever MatchName answers is one of its candidates and eligible.
  lemma TargetIsCandidate(f: Files, cs: seq<Candidate>, refName: string, from: string, preferCall: bool, r: Found)
    requires r.Target?
    requires |cs| <= AMBIGUOUS_CEILING ==> Answers(f, Members(cs), refName, from, preferCall, r)
    requires |cs| > AMBIGUOUS_CEILING ==> exists i :: FirstHere(cs, from, preferCall, i) && r == Target(cs[i].id, Exact)
    ensures exists c :: c in cs && c in Members(cs) && c.id == r.id && Eligible(c, preferCall)
  {
    if |cs| <= AMBIGUOUS_CEILING {
      var c :| Chosen(f, Members(cs), refName, from, preferCall, c)
               && r.id == c.id && r.provenance == ProvenanceOf(f, c, from);
      assert c in cs;
    } else {
      var i :| FirstHere(cs, from, preferCall, i) && r == Target(cs[i].id, Exact);
      assert cs[i] in cs;
    }
  }

  method TakeLone(f: Files, q: Query, ghost others: set<Candidate>, c: Candidate) returns (r: Resolution)
    requires OnlyCallable(others, c)
    ensures r == Unresolved ==> forall d, p :: OnlyCallable(others, d) ==> !TakesLone(f, q, d, p)
    ensures r.Resolved? ==> r.target == c.id && r.kind == KindOf(q) && TakesLone(f, q, c, r.provenance)
    ensures c in others && Callable(c.kind)
  {
    assert Members([c]) == {c};
    var hit, ok := FilterByImports(f, [c]);
    if ok {
      return Resolved(c.id, KindOf(q), Imported);
    }
    if f.dir(c.file) == f.dir(q.file) || f.dir(f.dir(c.file)) == f.dir(q.file) {
      return Resolved(c.id, KindOf(q), Heuristic);
    }
    return Unresolved;
  }

  // One set of candidates, one resolution, whatever their order.
  lemma ResolutionIsOne(f: Files, q: Query, cs: set<Candidate>, r: Resolution, s: Resolution)
    requires Decides(f, q, cs, r) && Decides(f, q, cs, s)
    ensures r == s
  {
    hide Answers, ReachedOf;
    var others := Others(q, cs);
    if q.fromNode != 0 && q.name != "" && others != {} {
      var call := CallLike(KindOf(q));
      var near, any :|
        && (if ReachedOf(f, others) == {} then near == Nobody else
            Answers(f, ReachedOf(f, others), q.name, q.file, call, near))
        && Answers(f, others, q.name, q.file, call, any) && Outcome(f, q, others, near, any, r);
      var near', any' :|
        && (if ReachedOf(f, others) == {} then near' == Nobody else
            Answers(f, ReachedOf(f, others), q.name, q.file, call, near'))
        && Answers(f, others, q.name, q.file, call, any') && Outcome(f, q, others, near', any', s);
      if ReachedOf(f, others) != {} {
        OneAnswer(f, ReachedOf(f, others), q.name, q.file, call, near, near');
      }
      OneAnswer(f, others, q.name, q.file, call, any, any');
    }
  }
}
