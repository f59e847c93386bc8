/** Building the batch of one file (indexFile in index_writer.go): one row per
    symbol key, same-file links as placeholder edges, the rest parked. */
module BatchBuilder {
  import opened Wrappers
  import opened IndexStore

  datatype Symbol = Symbol(kind: string, name: string, line: int, endLine: int, details: string)

  // A row the index already has under an import's target name.
  datatype Found = Found(id: int, kind: string)

  // What the extractors ask to connect: a reference from the symbol at `from`
  // (negative when no symbol was found) or an import of the file.
  datatype Request =
    | Link(from: int, name: string, line: int, col: int, kind: string)
    | Import(name: string, line: int, found: seq<Found>)

  function Rank(kind: string): int {
    if kind in ["function", "method", "component", "constructor"] then 3
    else if kind in ["class", "struct", "interface", "type"] then 2
    else if kind == "route" then 1
    else 0
  }

  // ---- One row per key -------------------------------------------------------------

  predicate SameKey(a: Symbol, b: Symbol) {
    a.line == b.line && a.kind == b.kind && a.name == b.name
  }

  predicate HasKey(symbols: seq<Symbol>, s: Symbol) {
    exists i :: 0 <= i < |symbols| && SameKey(symbols[i], s)
  }

  function FirstOfEach(symbols: seq<Symbol>): seq<Symbol> {
    if symbols == [] then
      []
    else
      var init, last := symbols[..|symbols| - 1], symbols[|symbols| - 1];
      if HasKey(init, last) then FirstOfEach(init) else FirstOfEach(init) + [last]
  }

  // No key is left out, none is there twice, and the first symbol leads.
  lemma {:induction false} FirstOfEachIs(symbols: seq<Symbol>)
    ensures var kept := FirstOfEach(symbols);
            && (forall s: Symbol :: HasKey(symbols, s) <==> HasKey(kept, s))
            && (forall i, j :: 0 <= i < j < |kept| ==> !SameKey(kept[i], kept[j]))
            && (forall s :: s in kept ==> s in symbols)
            && (symbols != [] ==> kept != [] && kept[0] == symbols[0])
  {
    if symbols != [] {
      var init, last := symbols[..|symbols| - 1], symbols[|symbols| - 1];
      FirstOfEachIs(init);
      var kept := FirstOfEach(init);
      assert forall s: Symbol :: HasKey(symbols, s) <==> HasKey(init, s) || SameKey(last, s) by {
        forall s: Symbol
          ensures HasKey(symbols, s) <==> HasKey(init, s) || SameKey(last, s)
        {
          HasKeyOneMore(init, last, s);
          assert init + [last] == symbols;
        }
      }
      if !HasKey(init, last) {
        forall s: Symbol
          ensures HasKey(kept + [last], s) <==> HasKey(kept, s) || SameKey(last, s)
        {
          HasKeyOneMore(kept, last, s);
        }
        forall i | 0 <= i < |kept|
          ensures !SameKey(kept[i], last)
        {
          assert HasKey(kept, kept[i]);
          assert SameKey(kept[i], last) ==> HasKey(kept, last);
        }
      }
    }
  }

  lemma HasKeyOneMore(symbols: seq<Symbol>, last: Symbol, s: Symbol)
    ensures HasKey(symbols + [last], s) <==> HasKey(symbols, s) || SameKey(last, s)
  {
    if HasKey(symbols, s) {
      var i :| 0 <= i < |symbols| && SameKey(symbols[i], s);
      assert SameKey((symbols + [last])[i], s);
    }
    if SameKey(last, s) {
      assert SameKey((symbols + [last])[|symbols|], s);
    }
  }

  ghost predicate FirstWithItsKey(symbols: seq<Symbol>, s: Symbol) {
    exists i :: 0 <= i < |symbols| && symbols[i] == s && !HasKey(symbols[..i], s)
  }

  // Of several symbols with one key the first is kept.
  lemma {:induction false} FirstOfEachKeepsTheFirst(symbols: seq<Symbol>, s: Symbol)
    ensures s in FirstOfEach(symbols) <==> FirstWithItsKey(symbols, s)
  {
    if symbols != [] {
      var init, last := symbols[..|symbols| - 1], symbols[|symbols| - 1];
      FirstOfEachKeepsTheFirst(init, s);
      if i :| 0 <= i < |init| && init[i] == s && !HasKey(init[..i], s) {
        assert symbols[..i] == init[..i] && symbols[i] == s;
      }
      if i :| 0 <= i < |symbols| && symbols[i] == s && !HasKey(symbols[..i], s) {
        if i < |init| {
          assert symbols[..i] == init[..i] && init[i] == s;
        } else {
          assert symbols[..i] == init && s == last;
        }
      }
      if s == last && !HasKey(init, last) {
        assert symbols[..|symbols| - 1] == init;
      }
    }
  }

  method Dedupe(symbols: seq<Symbol>) returns (kept: seq<Symbol>)
    ensures kept == FirstOfEach(symbols)
  {
    kept := [];
    var seen: set<(int, string, string)> := {};
    for i := 0 to |symbols|
      invariant kept == FirstOfEach(symbols[..i])
      invariant seen == set j | 0 <= j < i :: (symbols[j].line, symbols[j].kind, symbols[j].name)
    {
      assert symbols[..i + 1][..i] == symbols[..i];
      var key := (symbols[i].line, symbols[i].kind, symbols[i].name);
      assert key in seen <==> HasKey(symbols[..i], symbols[i]) by {
        if HasKey(symbols[..i], symbols[i]) {
          var j :| 0 <= j < i && SameKey(symbols[..i][j], symbols[i]);
          assert (symbols[j].line, symbols[j].kind, symbols[j].name) == key;
        }
        if key in seen {
          var j :| 0 <= j < i && (symbols[j].line, symbols[j].kind, symbols[j].name) == key;
          assert SameKey(symbols[..i][j], symbols[i]);
        }
      }
      if key !in seen {
        seen := seen + {key};
        kept := kept + [symbols[i]];
      }
    }
    assert symbols[..|symbols|] == symbols;
  }

  // ---- Which symbol of the file a name means -----------------------------------------

  // Symbol i can be meant by `name`. The file itself and bare interface
  // signatures never are.
  predicate Bears(symbols: seq<Symbol>, i: int, name: string) {
    1 <= i < |symbols| && symbols[i].name == name && symbols[i].kind != "signature"
  }

  predicate SameSpot(a: Symbol, b: Symbol) {
    a.line == b.line && Rank(a.kind) == Rank(b.kind)
  }

  ghost predicate OneSpot(symbols: seq<Symbol>, name: string) {
    forall i, j :: Bears(symbols, i, name) && Bears(symbols, j, name) ==> SameSpot(symbols[i], symbols[j])
  }

  // i is what a bare name means: its bearers share one spot and i leads them.
  ghost predicate MeansBare(symbols: seq<Symbol>, name: string, i: int) {
    Bears(symbols, i, name) && OneSpot(symbols, name) && forall j :: Bears(symbols, j, name) ==> i <= j
  }

  predicate Spans(s: Symbol, line: int) {
    && s.kind != KIND_FILE && s.kind != KIND_MODULE
    && s.line <= line <= (if s.endLine == 0 then s.line else s.endLine)
  }

  // Several spots bear the name, and i is the only bearer around the line.
  ghost predicate MeansAround(symbols: seq<Symbol>, name: string, line: int, i: int) {
    && !OneSpot(symbols, name)
    && Bears(symbols, i, name) && Spans(symbols[i], line)
    && forall j :: Bears(symbols, j, name) && Spans(symbols[j], line) ==> j == i
  }

  // The same-file target of a reference. It is a symbol of that very name and,
  // when two differently placed symbols bear it, never a guess between them.
  ghost predicate Means(symbols: seq<Symbol>, name: string, line: int, i: int) {
    name != "" && (MeansBare(symbols, name, i) || MeansAround(symbols, name, line, i))
  }

  lemma MeansOneSymbol(symbols: seq<Symbol>, name: string, line: int, i: int, j: int)
    requires Means(symbols, name, line, i) && Means(symbols, name, line, j)
    ensures i == j
  {
  }

  // ---- The same without ranks ------------------------------------------------------

  // Of one sort: both called like functions, both types, both routes, or both
  // something else.
  predicate SameSort(a: string, b: string) {
    && (a in ["function", "method", "component", "constructor"]
        <==> b in ["function", "method", "component", "constructor"])
    && (a in ["class", "struct", "interface", "type"] <==> b in ["class", "struct", "interface", "type"])
    && (a == "route" <==> b == "route")
  }

  lemma RankSorts(a: string, b: string)
    ensures Rank(a) == Rank(b) <==> SameSort(a, b)
  {
    OneSort(a);
    OneSort(b);
    hide Rank;
  }

  lemma OneSort(a: string)
    ensures Rank(a) == 3 <==> a in ["function", "method", "component", "constructor"]
    ensures Rank(a) == 2 <==> a in ["class", "struct", "interface", "type"]
    ensures Rank(a) == 1 <==> a == "route"
    ensures 0 <= Rank(a) <= 3
  {
  }

  // Symbol i has the name, is not the file and no bare signature.
  predicate Named(symbols: seq<Symbol>, i: int, name: string) {
    0 < i < |symbols| && symbols[i].name == name && symbols[i].kind != "signature"
  }

  // All of that name are on one line and of one sort.
  ghost predicate Together(symbols: seq<Symbol>, name: string) {
    forall i, j :: Named(symbols, i, name) && Named(symbols, j, name) ==>
      symbols[i].line == symbols[j].line && SameSort(symbols[i].kind, symbols[j].kind)
  }

  // The line is in the symbol's range, its first line alone when it has no end.
  predicate Contains(s: Symbol, line: int) {
    && s.kind != "file" && s.kind != "module"
    && s.line <= line && (line <= s.endLine || (s.endLine == 0 && line == s.line))
    && (s.endLine == 0 ==> line == s.line)
  }

  // A name means the first symbol that has it when all of them are on one line
  // and of one sort, and otherwise the only one of them around the line.
  lemma MeansExactly(symbols: seq<Symbol>, name: string, line: int, i: int)
    ensures Means(symbols, name, line, i) <==>
              && name != "" && Named(symbols, i, name)
              && if Together(symbols, name) then forall j :: Named(symbols, j, name) ==> i <= j
                 else Contains(symbols[i], line)
                      && forall j :: Named(symbols, j, name) && Contains(symbols[j], line) ==> j == i
  {
    hide Rank, SameSort;
    forall j
      ensures Bears(symbols, j, name) <==> Named(symbols, j, name)
      ensures Bears(symbols, j, name) ==> (Spans(symbols[j], line) <==> Contains(symbols[j], line))
    {
    }
    forall j, k | Named(symbols, j, name) && Named(symbols, k, name)
      ensures SameSpot(symbols[j], symbols[k]) <==>
                symbols[j].line == symbols[k].line && SameSort(symbols[j].kind, symbols[k].kind)
    {
      RankSorts(symbols[j].kind, symbols[k].kind);
    }
    assert OneSpot(symbols, name) <==> Together(symbols, name);
    hide Bears, Named, Spans, Contains, OneSpot, Together, SameSpot;
  }

  datatype Hit = Hit(idx: nat, rank: int, line: int)

  // The link maps: the best hit per bare name, the names with several spots,
  // and every bearer of a name.
  method LinkMaps(symbols: seq<Symbol>) returns (bare: map<string, nat>, bearers: map<string, seq<nat>>)
    ensures forall name :: name in bare <==> exists i :: MeansBare(symbols, name, i)
    ensures forall name :: name in bare ==> MeansBare(symbols, name, bare[name])
    ensures ListsBearers(symbols, |symbols|, bearers)
  {
    hide Bears, HitsSoFar, ListsBearers, Rank, MeansBare;
    var best: map<string, Hit> := map[];
    var ambiguous: set<string> := {};
    bearers := map[];
    var i := 1;
    NoHitsYet(symbols);
    while i < |symbols|
      invariant 1 <= i
      invariant HitsSoFar(symbols, i, best, ambiguous)
      invariant ListsBearers(symbols, i, bearers)
    {
      var s := symbols[i];
      BearersOneMore(symbols, i, bearers);
      if s.kind != "signature" {
        bearers := bearers[s.name := (if s.name in bearers then bearers[s.name] else []) + [i]];
        var rank := Rank(s.kind);
        ghost var was, split := best, ambiguous;
        if s.name in best && (best[s.name].line != s.line || best[s.name].rank != rank) {
          ambiguous := ambiguous + {s.name};
        }
        if s.name !in best || rank > best[s.name].rank || (rank == best[s.name].rank && s.line < best[s.name].line) {
          best := best[s.name := Hit(i, rank, s.line)];
        }
        BearerKeepsHits(symbols, i, was, split, best, ambiguous);
      } else {
        SignatureKeepsHits(symbols, i, best, ambiguous);
      }
      i := i + 1;
    }
    HitsDone(symbols, i, best, ambiguous);
    BearersDone(symbols, i, bearers);
    bare := map name | name in best && name !in ambiguous :: best[name].idx;
  }

  // bearers lists, in order, every symbol below i that bears a name.
  ghost predicate ListsBearers(symbols: seq<Symbol>, i: int, bearers: map<string, seq<nat>>) {
    && (forall name, j :: name in bearers && j in bearers[name] ==> Bears(symbols, j, name) && j < i)
    && (forall name, j :: Bears(symbols, j, name) && j < i ==> name in bearers && j in bearers[name])
    && (forall name :: name in bearers ==> Ascends(bearers[name]))
  }

  ghost predicate Ascends(a: seq<nat>) {
    forall i, j :: 0 <= i < j < |a| ==> a[i] < a[j]
  }

  lemma NoHitsYet(symbols: seq<Symbol>)
    ensures HitsSoFar(symbols, 1, map[], {}) && ListsBearers(symbols, 1, map[])
  {
  }

  lemma BearersDone(symbols: seq<Symbol>, i: int, bearers: map<string, seq<nat>>)
    requires i >= |symbols| && ListsBearers(symbols, i, bearers)
    ensures ListsBearers(symbols, |symbols|, bearers)
  {
  }

  lemma BearersOneMore(symbols: seq<Symbol>, i: int, bearers: map<string, seq<nat>>)
    requires 1 <= i < |symbols| && ListsBearers(symbols, i, bearers)
    ensures var s := symbols[i];
            if s.kind == "signature" then ListsBearers(symbols, i + 1, bearers)
            else ListsBearers(symbols, i + 1,
                                bearers[s.name := (if s.name in bearers then bearers[s.name] else []) + [i]])
  {
    var s := symbols[i];
    assert forall name :: Bears(symbols, i, name) <==> name == s.name && s.kind != "signature";
    hide Bears, Ascends;
    if s.kind != "signature" {
      var was := if s.name in bearers then bearers[s.name] else [];
      var now := was + [i];
      assert Ascends(was) by { EmptyAscends(); }
      AscendsMore(was, i);
      assert forall j :: j in now <==> j in was || j == i;
    }
  }

  lemma EmptyAscends()
    ensures Ascends([])
  {
  }

  lemma AscendsMore(a: seq<nat>, i: nat)
    requires Ascends(a) && forall j :: j in a ==> j < i
    ensures Ascends(a + [i])
  {
    assert forall j :: 0 <= j < |a| ==> a[j] in a;
  }

  lemma SignatureKeepsHits(symbols: seq<Symbol>, i: int, best: map<string, Hit>, ambiguous: set<string>)
    requires 1 <= i < |symbols| && symbols[i].kind == "signature" && HitsSoFar(symbols, i, best, ambiguous)
    ensures HitsSoFar(symbols, i + 1, best, ambiguous)
  {
    hide SplitSoFar;
    assert forall name :: !Bears(symbols, i, name);
    forall name | name in ambiguous
      ensures SplitSoFar(symbols, i + 1, name)
    {
      SplitLasts(symbols, i, name);
    }
  }

  lemma SplitLasts(symbols: seq<Symbol>, i: int, name: string)
    requires SplitSoFar(symbols, i, name)
    ensures SplitSoFar(symbols, i + 1, name)
  {
    var j, k :| Bears(symbols, j, name) && Bears(symbols, k, name) && j < i && k < i
                && !SameSpot(symbols[j], symbols[k]);
  }

  // The step of the loop on a symbol that bears its name.
  ghost predicate NotesBearer(symbols: seq<Symbol>, i: int, was: map<string, Hit>, split: set<string>,
                              best: map<string, Hit>, ambiguous: set<string>) {
    && 1 <= i < |symbols| && symbols[i].kind != "signature"
    && var s := symbols[i];
    && ambiguous == (if s.name in was && (was[s.name].line != s.line || was[s.name].rank != Rank(s.kind))
                     then split + {s.name} else split)
    && best == (if s.name !in was || Rank(s.kind) > was[s.name].rank
                   || (Rank(s.kind) == was[s.name].rank && s.line < was[s.name].line)
                then was[s.name := Hit(i, Rank(s.kind), s.line)] else was)
  }

  lemma BearerKeepsSplit(symbols: seq<Symbol>, i: int, was: map<string, Hit>, split: set<string>,
                         best: map<string, Hit>, ambiguous: set<string>, name: string)
    requires NotesBearer(symbols, i, was, split, best, ambiguous) && HitsSoFar(symbols, i, was, split)
    requires name in ambiguous
    ensures SplitSoFar(symbols, i + 1, name)
  {
    hide Rank;
    if name in split {
      SplitLasts(symbols, i, name);
    } else {
      assert HitFor(symbols, i, name, was[name]);
      assert Bears(symbols, i, name) && !SameSpot(symbols[was[name].idx], symbols[i]);
    }
  }

  lemma BearerKeepsHit(symbols: seq<Symbol>, i: int, was: map<string, Hit>, split: set<string>,
                       best: map<string, Hit>, ambiguous: set<string>, name: string)
    requires NotesBearer(symbols, i, was, split, best, ambiguous) && HitsSoFar(symbols, i, was, split)
    requires name in best
    ensures HitFor(symbols, i + 1, name, best[name])
    ensures name !in ambiguous ==> LeadsSoFar(symbols, i + 1, name, best[name].idx)
  {
    hide Rank;
    if name in was {
      assert HitFor(symbols, i, name, was[name]);
      assert name !in ambiguous ==> LeadsSoFar(symbols, i, name, was[name].idx);
    }
  }

  lemma BearerKeepsHits(symbols: seq<Symbol>, i: int, was: map<string, Hit>, split: set<string>,
                        best: map<string, Hit>, ambiguous: set<string>)
    requires NotesBearer(symbols, i, was, split, best, ambiguous) && HitsSoFar(symbols, i, was, split)
    ensures HitsSoFar(symbols, i + 1, best, ambiguous)
  {
    hide Rank, HitFor, LeadsSoFar, SplitSoFar;
    forall name | name in ambiguous
      ensures SplitSoFar(symbols, i + 1, name)
    {
      BearerKeepsSplit(symbols, i, was, split, best, ambiguous, name);
    }
    forall name | name in best
      ensures HitFor(symbols, i + 1, name, best[name])
      ensures best[name].idx < |symbols|
      ensures name !in ambiguous ==> LeadsSoFar(symbols, i + 1, name, best[name].idx)
    {
      BearerKeepsHit(symbols, i, was, split, best, ambiguous, name);
      HitInRange(symbols, i + 1, name, best[name]);
    }
  }

  lemma HitInRange(symbols: seq<Symbol>, i: int, name: string, h: Hit)
    requires HitFor(symbols, i, name, h)
    ensures h.idx < |symbols|
  {
  }

  lemma HitsDone(symbols: seq<Symbol>, i: int, best: map<string, Hit>, ambiguous: set<string>)
    requires i >= |symbols| && HitsSoFar(symbols, i, best, ambiguous)
    ensures forall name :: name in best && name !in ambiguous ==> MeansBare(symbols, name, best[name].idx)
    ensures forall name, j :: MeansBare(symbols, name, j) ==> name in best && name !in ambiguous
  {
    forall name | name in best && name !in ambiguous
      ensures MeansBare(symbols, name, best[name].idx)
    {
      assert LeadsSoFar(symbols, i, name, best[name].idx);
    }
    forall name, j | MeansBare(symbols, name, j)
      ensures name in best && name !in ambiguous
    {
      assert Bears(symbols, j, name);
      assert name in ambiguous ==> SplitSoFar(symbols, i, name);
      assert SplitSoFar(symbols, i, name) ==> !OneSpot(symbols, name);
    }
  }

  ghost predicate HitFor(symbols: seq<Symbol>, i: int, name: string, h: Hit) {
    && Bears(symbols, h.idx, name) && h.idx < i
    && h.line == symbols[h.idx].line && h.rank == Rank(symbols[h.idx].kind)
  }

  ghost predicate LeadsSoFar(symbols: seq<Symbol>, i: int, name: string, h: nat)
    requires h < |symbols|
  {
    forall j :: Bears(symbols, j, name) && j < i ==> h <= j && SameSpot(symbols[j], symbols[h])
  }

  ghost predicate SplitSoFar(symbols: seq<Symbol>, i: int, name: string) {
    exists j, k :: Bears(symbols, j, name) && Bears(symbols, k, name) && j < i && k < i
           && !SameSpot(symbols[j], symbols[k])
  }

  ghost predicate HitsSoFar(symbols: seq<Symbol>, i: int, best: map<string, Hit>, ambiguous: set<string>) {
    && (forall name :: name in best ==> HitFor(symbols, i, name, best[name]))
    && (forall name, j :: Bears(symbols, j, name) && j < i ==> name in best)
    && (forall name :: name in best && name !in ambiguous ==> LeadsSoFar(symbols, i, name, best[name].idx))
    && (forall name :: name in ambiguous ==> SplitSoFar(symbols, i, name))
  }

  // A name with several bearers and no bare meaning has them on several spots.
  lemma SeveralSpots(symbols: seq<Symbol>, bearers: map<string, seq<nat>>, name: string)
    requires ListsBearers(symbols, |symbols|, bearers) && name in bearers && |bearers[name]| > 0
    requires forall i :: !MeansBare(symbols, name, i)
    ensures !OneSpot(symbols, name)
  {
    var first := bearers[name][0];
    assert first in bearers[name] && Bears(symbols, first, name);
    forall j | Bears(symbols, j, name)
      ensures first <= j
    {
      assert j in bearers[name];
    }
    assert !MeansBare(symbols, name, first);
  }

  lemma NoneOrOneBearer(symbols: seq<Symbol>, bearers: map<string, seq<nat>>, name: string)
    requires ListsBearers(symbols, |symbols|, bearers) && !(name in bearers && |bearers[name]| > 1)
    ensures OneSpot(symbols, name)
  {
    forall i, j | Bears(symbols, i, name) && Bears(symbols, j, name)
      ensures SameSpot(symbols[i], symbols[j])
    {
      assert i in bearers[name] && j in bearers[name];
    }
  }

  method FindTarget(symbols: seq<Symbol>, bare: map<string, nat>, bearers: map<string, seq<nat>>,
                    name: string, line: int)
    returns (target: Option<nat>)
    requires forall n :: n in bare <==> exists i :: MeansBare(symbols, n, i)
    requires forall n :: n in bare ==> MeansBare(symbols, n, bare[n])
    requires ListsBearers(symbols, |symbols|, bearers)
    ensures target.Some? ==> Means(symbols, name, line, target.value)
    ensures target.None? ==> forall i :: !Means(symbols, name, line, i)
  {
    if name == "" {
      return None;
    }
    if name in bare {
      return Some(bare[name]);
    }
    target := None;
    if name in bearers && |bearers[name]| > 1 {
      SeveralSpots(symbols, bearers, name);
      target := OneAround(symbols, bearers[name], line);
      OneAroundIsMeant(symbols, bearers, name, line);
    } else {
      NoneOrOneBearer(symbols, bearers, name);
    }
  }

  ghost predicate OnlyAround(symbols: seq<Symbol>, among: seq<nat>, line: int, i: nat) {
    i in among && Around(symbols, i, line) && forall j :: j in among && Around(symbols, j, line) ==> j == i
  }

  lemma OneAroundIsMeant(symbols: seq<Symbol>, bearers: map<string, seq<nat>>, name: string, line: int)
    requires ListsBearers(symbols, |symbols|, bearers) && name in bearers && !OneSpot(symbols, name)
    ensures forall i: nat :: OnlyAround(symbols, bearers[name], line, i) <==> MeansAround(symbols, name, line, i)
  {
    hide OneSpot, Spans;
    assert forall j :: Bears(symbols, j, name) <==> j >= 0 && j in bearers[name] && j < |symbols|;
    assert forall j: nat :: Around(symbols, j, line) <==> j < |symbols| && Spans(symbols[j], line);
    hide Bears, Around, ListsBearers;
  }

  // The loop over the bearers: the only one around the line, if there is one.
  method OneAround(symbols: seq<Symbol>, among: seq<nat>, line: int) returns (target: Option<nat>)
    requires Ascends(among) && forall i :: i in among ==> i < |symbols|
    ensures target.Some? ==> OnlyAround(symbols, among, line, target.value)
    ensures target == None ==> forall i: nat :: !OnlyAround(symbols, among, line, i)
  {
    target := None;
    var contain := 0;
    for j := 0 to |among|
      invariant contain == 0 ==> target == None
      invariant contain > 0 ==> target.Some? && target.value in among[..j] && Around(symbols, target.value, line)
      invariant contain <= 1 ==> forall i :: i in among[..j] && Around(symbols, i, line) ==> target == Some(i)
      invariant contain > 1 ==> exists h, i :: TwoAround(symbols, among[..j], line, h, i)
      invariant contain >= 0
    {
      var i := among[j];
      assert i in among && among[..j + 1] == among[..j] + [i];
      if Spans(symbols[i], line) {
        if contain > 0 {
          assert TwoAround(symbols, among[..j + 1], line, target.value, i);
        }
        contain := contain + 1;
        target := Some(i);
      } else if contain > 1 {
        ghost var g, h :| TwoAround(symbols, among[..j], line, g, h);
        assert TwoAround(symbols, among[..j + 1], line, g, h);
      }
    }
    assert among[..|among|] == among;
    if contain > 1 {
      target := None;
    }
  }

  ghost predicate Around(symbols: seq<Symbol>, i: nat, line: int) {
    i < |symbols| && Spans(symbols[i], line)
  }

  ghost predicate TwoAround(symbols: seq<Symbol>, among: seq<nat>, line: int, h: nat, i: nat) {
    && h in among && i in among && h < i
    && Around(symbols, h, line) && Around(symbols, i, line)
  }
}
