/** The batch indexFile hands to the store: what it holds, when the store takes
    it, and that every request ends up between the rows it was about. */
module IndexedFile {
  import opened Wrappers
  import opened IndexStore
  import opened FileReplacement
  import opened BatchBuilder
  import opened Parking
  import opened Database
  import opened Names

  function ToNode(file: string, lang: string, s: Symbol): Node {
    Node(s.kind, s.name, file, s.line, lang, s.details)
  }

  function ModuleNode(name: string, lang: string): Node {
    Node(KIND_MODULE, name, name, 0, lang, "")
  }

  function Placeholder(i: int): int {
    -(i + 1)
  }

  // The row an import is attached to: a module if one is found, else the first.
  function Preferred(found: seq<Found>): int
    requires found != []
  {
    if exists i :: 0 <= i < |found| && found[i].kind == KIND_MODULE then FirstModule(found) else found[0].id
  }

  function FirstModule(found: seq<Found>): int
    requires exists i :: 0 <= i < |found| && found[i].kind == KIND_MODULE
  {
    if found[0].kind == KIND_MODULE then found[0].id else FirstModule(found[1..])
  }

  // ---- What a request asks for ---------------------------------------------------

  // One file being indexed: its symbols with one per key, the file itself
  // first, the unknown names worth parking, and the module nodes queued.
  datatype Job = Job(file: string, lang: string, symbols: seq<Symbol>, parkable: string -> bool, modules: seq<Node>)

  ghost predicate LinkEdge(j: Job, q: Request, e: Edge)
    requires q.Link?
  {
    && q.from >= 0
    && exists i :: Means(j.symbols, q.name, q.line, i)
         && e == Edge(EdgeKey(Placeholder(q.from), Placeholder(i), q.kind, q.line, q.col), EdgeRow(j.file, "exact", ""))
  }

  ghost predicate ImportEdge(j: Job, q: Request, e: Edge)
    requires q.Import?
  {
    && e.row == EdgeRow(j.file, "exact", "")
    && e.key == EdgeKey(Placeholder(0), e.key.target, "imports", q.line, 0)
    && if q.found != [] then
         e.key.target == Preferred(q.found)
       else
         exists m :: 0 <= m < |j.modules| && j.modules[m].name == q.name && e.key.target == Placeholder(|j.symbols| + m)
  }

  ghost predicate Serves(j: Job, q: Request, e: Edge) {
    match q
    case Link(_, _, _, _, _) => LinkEdge(j, q, e)
    case Import(_, _, _) => ImportEdge(j, q, e)
  }

  // A link with no target in the file that is worth keeping for a later pass.
  ghost predicate ParksLink(j: Job, q: Request) {
    q.Link? && q.from >= 0 && q.name != "" && j.parkable(q.name) && forall i :: !Means(j.symbols, q.name, q.line, i)
  }

  function ParkOf(j: Job, q: Request): Ref
    requires q.Link?
  {
    Ref(RefKey(Placeholder(q.from), q.name, q.kind, q.line, q.col), j.file, j.lang, PENDING, RefNameTail(q.name), "")
  }

  ghost predicate ParksAs(j: Job, q: Request, r: Ref) {
    ParksLink(j, q) && r == ParkOf(j, q)
  }

  ghost predicate WantsEdge(j: Job, q: Request) {
    q.Import? || (q.from >= 0 && exists i :: Means(j.symbols, q.name, q.line, i))
  }

  ghost predicate Served(j: Job, q: Request, edges: seq<Edge>) {
    exists e :: e in edges && Serves(j, q, e)
  }

  ghost predicate ServesOne(j: Job, qs: seq<Request>, e: Edge) {
    exists q :: q in qs && Serves(j, q, e)
  }

  ghost predicate ParkedForOne(j: Job, qs: seq<Request>, r: Ref) {
    exists q :: q in qs && ParksAs(j, q, r)
  }

  // The edges and refs answer the requests in qs and nothing else.
  ghost predicate Answers(j: Job, qs: seq<Request>, edges: seq<Edge>, refs: seq<Ref>) {
    && (forall q :: q in qs && WantsEdge(j, q) ==> Served(j, q, edges))
    && (forall e :: e in edges ==> ServesOne(j, qs, e))
    && (forall q :: q in qs && ParksLink(j, q) ==> ParkOf(j, q) in refs)
    && (forall r :: r in refs ==> ParkedForOne(j, qs, r))
  }

  predicate NeedsModule(q: Request) {
    q.Import? && q.found == []
  }

  predicate Queued(modules: seq<Node>, name: string) {
    exists m :: 0 <= m < |modules| && modules[m].name == name
  }

  ghost predicate Asked(qs: seq<Request>, name: string) {
    exists q :: q in qs && NeedsModule(q) && q.name == name
  }

  // One module node per import name nothing was found under.
  ghost predicate QueuesModules(lang: string, qs: seq<Request>, modules: seq<Node>) {
    && (forall m :: 0 <= m < |modules| ==> modules[m] == ModuleNode(modules[m].name, lang))
    && (forall m, n :: 0 <= m < n < |modules| ==> modules[m].name != modules[n].name)
    && (forall m :: 0 <= m < |modules| ==> Asked(qs, modules[m].name))
    && (forall q :: q in qs && NeedsModule(q) ==> Queued(modules, q.name))
  }

  lemma AskedLasts(qs: seq<Request>, q: Request, name: string)
    requires Asked(qs, name)
    ensures Asked(qs + [q], name)
  {
    var p :| p in qs && NeedsModule(p) && p.name == name;
    assert p in qs + [q];
  }

  lemma QueuedOneMore(modules: seq<Node>, n: Node, name: string)
    ensures Queued(modules + [n], name) <==> Queued(modules, name) || n.name == name
  {
    if Queued(modules, name) {
      var m :| 0 <= m < |modules| && modules[m].name == name;
      assert (modules + [n])[m].name == name;
    }
    if n.name == name {
      assert (modules + [n])[|modules|].name == name;
    }
  }

  lemma QueueOneMore(lang: string, qs: seq<Request>, modules: seq<Node>, q: Request)
    requires QueuesModules(lang, qs, modules)
    ensures !NeedsModule(q) || Queued(modules, q.name) ==> QueuesModules(lang, qs + [q], modules)
    ensures NeedsModule(q) && !Queued(modules, q.name) ==>
              QueuesModules(lang, qs + [q], modules + [ModuleNode(q.name, lang)])
  {
    hide Queued, Asked, NeedsModule;
    forall name | Asked(qs, name)
      ensures Asked(qs + [q], name)
    {
      AskedLasts(qs, q, name);
    }
    if NeedsModule(q) && !Queued(modules, q.name) {
      var more := modules + [ModuleNode(q.name, lang)];
      assert Asked(qs + [q], q.name) by { AskedNow(qs, q); }
      forall name
        ensures Queued(more, name) <==> Queued(modules, name) || q.name == name
      {
        QueuedOneMore(modules, ModuleNode(q.name, lang), name);
      }
      forall m, n | 0 <= m < n < |more|
        ensures more[m].name != more[n].name
      {
        QueuedAt(modules, m);
      }
    }
  }

  lemma AskedNow(qs: seq<Request>, q: Request)
    requires NeedsModule(q)
    ensures Asked(qs + [q], q.name)
  {
    assert q in qs + [q];
  }

  lemma QueuedAt(modules: seq<Node>, m: nat)
    requires m < |modules|
    ensures Queued(modules, modules[m].name)
  {
  }

  method QueueModules(lang: string, qs: seq<Request>) returns (modules: seq<Node>, index: map<string, nat>)
    ensures QueuesModules(lang, qs, modules)
    ensures forall name :: name in index ==> index[name] < |modules| && modules[index[name]].name == name
    ensures forall q :: q in qs && NeedsModule(q) ==> q.name in index
  {
    hide QueuesModules;
    modules, index := [], map[];
    assert QueuesModules(lang, qs[..0], modules) by { NothingQueued(lang, qs); }
    for i := 0 to |qs|
      invariant QueuesModules(lang, qs[..i], modules)
      invariant forall name :: name in index ==> index[name] < |modules| && modules[index[name]].name == name
      invariant forall m :: 0 <= m < |modules| ==> modules[m].name in index
    {
      var q := qs[i];
      assert qs[..i + 1] == qs[..i] + [q];
      QueueOneMore(lang, qs[..i], modules, q);
      if NeedsModule(q) && q.name !in index {
        index := index[q.name := |modules|];
        modules := modules + [ModuleNode(q.name, lang)];
      }
    }
    assert qs[..|qs|] == qs;
    EveryNeedQueued(lang, qs, modules);
  }

  lemma NothingQueued(lang: string, qs: seq<Request>)
    ensures QueuesModules(lang, qs[..0], [])
  {
  }

  lemma EveryNeedQueued(lang: string, qs: seq<Request>, modules: seq<Node>)
    requires QueuesModules(lang, qs, modules)
    ensures forall q :: q in qs && NeedsModule(q) ==> exists m :: 0 <= m < |modules| && modules[m].name == q.name
  {
  }

  method Prefer(found: seq<Found>) returns (id: int)
    requires found != []
    ensures id == Preferred(found)
  {
    id := found[0].id;
    for i := 0 to |found|
      invariant id == found[0].id
      invariant forall j :: 0 <= j < i ==> found[j].kind != KIND_MODULE
      invariant (exists j :: 0 <= j < |found| && found[j].kind == KIND_MODULE) ==>
                  (exists j :: 0 <= j < |found[i..]| && found[i..][j].kind == KIND_MODULE)
                  && FirstModule(found) == FirstModule(found[i..])
    {
      if found[i].kind == KIND_MODULE {
        assert found[i..][0] == found[i];
        return found[i].id;
      }
      assert found[i..][1..] == found[i + 1..];
    }
  }

  // ---- The batch ---------------------------------------------------------------------

  lemma ServedMore(j: Job, p: Request, edges: seq<Edge>, e: Edge)
    ensures Served(j, p, edges) || Serves(j, p, e) ==> Served(j, p, edges + [e])
  {
    hide Serves;
    if Served(j, p, edges) {
      var d :| d in edges && Serves(j, p, d);
      assert d in edges + [e];
    }
    assert e in edges + [e];
  }

  lemma ServesOneMore(j: Job, qs: seq<Request>, q: Request, e: Edge)
    ensures ServesOne(j, qs, e) || Serves(j, q, e) ==> ServesOne(j, qs + [q], e)
  {
    hide Serves;
    if ServesOne(j, qs, e) {
      var p :| p in qs && Serves(j, p, e);
      assert p in qs + [q];
    }
    assert q in qs + [q];
  }

  lemma ParkedForMore(j: Job, qs: seq<Request>, q: Request, r: Ref)
    ensures ParkedForOne(j, qs, r) || ParksAs(j, q, r) ==> ParkedForOne(j, qs + [q], r)
  {
    hide ParksAs;
    if ParkedForOne(j, qs, r) {
      var p :| p in qs && ParksAs(j, p, r);
      assert p in qs + [q];
    }
    assert q in qs + [q];
  }

  // What answered the requests before still does, with one request more.
  lemma AnswersStay(j: Job, qs: seq<Request>, q: Request)
    ensures forall e :: ServesOne(j, qs, e) || Serves(j, q, e) ==> ServesOne(j, qs + [q], e)
    ensures forall r :: ParkedForOne(j, qs, r) ==> ParkedForOne(j, qs + [q], r)
  {
    hide ServesOne, Serves, ParkedForOne;
    forall e
      ensures ServesOne(j, qs, e) || Serves(j, q, e) ==> ServesOne(j, qs + [q], e)
    {
      ServesOneMore(j, qs, q, e);
    }
    forall r
      ensures ParkedForOne(j, qs, r) ==> ParkedForOne(j, qs + [q], r)
    {
      ParkedForMore(j, qs, q, r);
    }
  }

  lemma AnswersWithNothing(j: Job, qs: seq<Request>, edges: seq<Edge>, refs: seq<Ref>, q: Request)
    requires Answers(j, qs, edges, refs) && !WantsEdge(j, q) && !ParksLink(j, q)
    ensures Answers(j, qs + [q], edges, refs)
  {
    hide Served, ServesOne, ParkedForOne, WantsEdge, ParksLink, Serves;
    AnswersStay(j, qs, q);
  }

  lemma AnswersWithEdge(j: Job, qs: seq<Request>, edges: seq<Edge>, refs: seq<Ref>, q: Request, e: Edge)
    requires Answers(j, qs, edges, refs) && Serves(j, q, e) && !ParksLink(j, q)
    ensures Answers(j, qs + [q], edges + [e], refs)
  {
    hide Served, ServesOne, ParkedForOne, WantsEdge, ParksLink, Serves;
    AnswersStay(j, qs, q);
    forall p
      ensures Served(j, p, edges) || Serves(j, p, e) ==> Served(j, p, edges + [e])
    {
      ServedMore(j, p, edges, e);
    }
  }

  lemma AnswersWithPark(j: Job, qs: seq<Request>, edges: seq<Edge>, refs: seq<Ref>, q: Request)
    requires Answers(j, qs, edges, refs) && ParksLink(j, q) && !WantsEdge(j, q)
    ensures Answers(j, qs + [q], edges, refs + [ParkOf(j, q)])
  {
    hide Served, ServesOne, ParkedForOne, WantsEdge, Serves, ParkOf;
    AnswersStay(j, qs, q);
    ParkedForMore(j, qs, q, ParkOf(j, q));
  }

  predicate RequestsFit(j: Job, qs: seq<Request>) {
    && j.symbols != []
    && forall q :: q in qs && q.Link? ==> q.from < |j.symbols|
  }

  // One pass over the requests, given the modules queued for the imports.
  method Answer(j: Job, index: map<string, nat>, qs: seq<Request>) returns (edges: seq<Edge>, refs: seq<Ref>)
    requires RequestsFit(j, qs)
    requires forall name :: name in index ==> index[name] < |j.modules| && j.modules[index[name]].name == name
    requires forall q :: q in qs && NeedsModule(q) ==> q.name in index
    ensures Answers(j, qs, edges, refs)
  {
    hide Answers, Means, Preferred, RefNameTail;
    var bare, bearers := LinkMaps(j.symbols);
    edges, refs := [], [];
    assert Answers(j, qs[..0], edges, refs) by { NothingAnswered(j, qs); }
    for i := 0 to |qs|
      invariant Answers(j, qs[..i], edges, refs)
    {
      var q := qs[i];
      assert qs[..i + 1] == qs[..i] + [q];
      match q {
        case Import(name, line, found) =>
          var target;
          if found != [] {
            target := Prefer(found);
          } else {
            assert NeedsModule(q) && q in qs;
            target := Placeholder(|j.symbols| + index[name]);
          }
          var e := Edge(EdgeKey(Placeholder(0), target, "imports", line, 0), EdgeRow(j.file, "exact", ""));
          assert Serves(j, q, e);
          AnswersWithEdge(j, qs[..i], edges, refs, q, e);
          edges := edges + [e];
        case Link(from, name, line, col, kind) =>
          if from < 0 || name == "" {
            NamelessMeansNothing(j.symbols, line);
            AnswersWithNothing(j, qs[..i], edges, refs, q);
          } else {
            var target := FindTarget(j.symbols, bare, bearers, name, line);
            if target.Some? {
              var e := Edge(EdgeKey(Placeholder(from), Placeholder(target.value), kind, line, col),
                            EdgeRow(j.file, "exact", ""));
              assert Serves(j, q, e);
              AnswersWithEdge(j, qs[..i], edges, refs, q, e);
              edges := edges + [e];
            } else if j.parkable(name) {
              AnswersWithPark(j, qs[..i], edges, refs, q);
              refs := refs + [ParkOf(j, q)];
            } else {
              AnswersWithNothing(j, qs[..i], edges, refs, q);
            }
          }
      }
    }
    assert qs[..|qs|] == qs;
  }

  lemma NothingAnswered(j: Job, qs: seq<Request>)
    ensures Answers(j, qs[..0], [], [])
  {
  }

  lemma NamelessMeansNothing(symbols: seq<Symbol>, line: int)
    ensures forall i :: !Means(symbols, "", line, i)
  {
  }

  // ---- What the store makes of the batch -------------------------------------------------

  function Rows(j: Job): seq<Node> {
    seq(|j.symbols|, i requires 0 <= i < |j.symbols| => ToNode(j.file, j.lang, j.symbols[i]))
  }

  function BatchOf(j: Job, edges: seq<Edge>, refs: seq<Ref>, record: Option<(string, string)>): Batch {
    Batch(Rows(j), edges, refs, record, j.modules)
  }

  // A job as indexFile prepares it: requests about its symbols, module nodes
  // queued for them, found rows read from a store that gave out ids below `next`.
  ghost predicate Prepares(j: Job, qs: seq<Request>, next: int) {
    && RequestsFit(j, qs)
    && QueuesModules(j.lang, qs, j.modules)
    && forall q :: q in qs && q.Import? && q.found != [] ==> 0 < Preferred(q.found) < next
  }

  lemma ServedEdgeShape(j: Job, qs: seq<Request>, q: Request, e: Edge)
    requires RequestsFit(j, qs) && q in qs && Serves(j, q, e)
    ensures e.row.file == j.file && -|j.symbols| <= e.key.source < 0
    ensures q.Link? ==> -|j.symbols| <= e.key.target < 0
    ensures q.Import? && q.found != [] ==> e.key.target == Preferred(q.found)
    ensures NeedsModule(q) ==> -|j.symbols| - |j.modules| <= e.key.target < -|j.symbols|
    ensures NeedsModule(q) ==> j.modules[-(e.key.target + 1) - |j.symbols|].name == q.name
  {
    hide Preferred;
  }

  lemma BuiltBatchIsTidy(j: Job, qs: seq<Request>, edges: seq<Edge>, refs: seq<Ref>,
                         record: Option<(string, string)>, next: int)
    requires Prepares(j, qs, next) && Answers(j, qs, edges, refs)
    ensures Tidy(BatchOf(j, edges, refs, record), j.file)
    ensures forall s: Store :: s.nextNode >= next && next > 0 ==> ReadEarlier(s, BatchOf(j, edges, refs, record))
  {
    hide Serves, ParksLink, RefNameTail, Preferred, QueuesModules, WantsEdge;
    forall e | e in edges
      ensures e.row.file == j.file && -|j.symbols| <= e.key.source < 0 && (next > 0 ==> e.key.target < next)
    {
      assert ServesOne(j, qs, e);
      var q :| q in qs && Serves(j, q, e);
      ServedEdgeShape(j, qs, q, e);
    }
    forall r | r in refs
      ensures -|j.symbols| <= r.key.from < 0 && r.filePath == j.file && r.status == PENDING
    {
      assert ParkedForOne(j, qs, r);
      var q :| q in qs && ParksAs(j, q, r);
      ParkedRefShape(j, q, r);
    }
  }

  lemma ParkedRefShape(j: Job, q: Request, r: Ref)
    requires ParksAs(j, q, r)
    ensures q.Link? && q.from >= 0
    ensures r.key == RefKey(Placeholder(q.from), q.name, q.kind, q.line, q.col)
    ensures r.filePath == j.file && r.status == PENDING
  {
    hide RefNameTail;
  }

  // The import's row will be there: a found row of another file, or a module
  // node that is not filed under this very path.
  ghost predicate ImportStands(s: Store, file: string, q: Request)
    requires q.Import?
  {
    if q.found != [] then Preferred(q.found) in s.nodes && s.nodes[Preferred(q.found)].file != file
    else q.name != file
  }

  lemma EdgeReaches(s: Store, j: Job, qs: seq<Request>, b: Batch, q: Request, e: Edge, next: int)
    requires Prepares(j, qs, next) && q in qs && Serves(j, q, e)
    requires b.nodes == Rows(j) && b.modules == j.modules
    ensures Reaches(s, j.file, b, e.key.source)
    ensures Reaches(s, j.file, b, e.key.target) <==> q.Link? || ImportStands(s, j.file, q)
  {
    hide Serves, Preferred;
    ServedEdgeShape(j, qs, q, e);
  }

  // indexFile's batch is refused exactly when an import hangs on a row that the
  // replacement itself deletes, or on no row at all.
  lemma BuiltBatchCommitsExactly(s: Store, j: Job, qs: seq<Request>, edges: seq<Edge>, refs: seq<Ref>,
                                 record: Option<(string, string)>)
    requires Valid(s) && Prepares(j, qs, s.nextNode) && Answers(j, qs, edges, refs)
    ensures Replaced(s, j.file, BatchOf(j, edges, refs, record)).Some? <==>
              forall q :: q in qs && q.Import? ==> ImportStands(s, j.file, q)
  {
    hide Valid, Replaced, Reaches, Serves, ImportStands, Prepares, ParksLink, RefNameTail;
    var b := BatchOf(j, edges, refs, record);
    assert s.nextNode > 0 by { SomeIdIsNext(s); }
    BuiltBatchIsTidy(j, qs, edges, refs, record, s.nextNode);
    ReplaceCommitsExactly(s, j.file, b);
    forall e | e in edges
      ensures exists q :: q in qs && Serves(j, q, e)
      ensures forall q :: q in qs && Serves(j, q, e) ==>
                Reaches(s, j.file, b, e.key.source)
                && (Reaches(s, j.file, b, e.key.target) <==> q.Link? || ImportStands(s, j.file, q))
    {
      assert ServesOne(j, qs, e);
      forall q | q in qs && Serves(j, q, e)
        ensures Reaches(s, j.file, b, e.key.source)
        ensures Reaches(s, j.file, b, e.key.target) <==> q.Link? || ImportStands(s, j.file, q)
      {
        EdgeReaches(s, j, qs, b, q, e, s.nextNode);
      }
    }
    forall r | r in refs
      ensures Reaches(s, j.file, b, r.key.from)
    {
      TidyRefReaches(s, j.file, b, r);
    }
    forall q | q in qs && q.Import?
      ensures exists e :: e in edges && Serves(j, q, e)
    {
      assert WantsEdge(j, q);
      assert Served(j, q, edges);
    }
  }

  // A file whose function `util` is indexed, and that imports a `util` nobody
  // else has.
  const OWN_STORE := Store(map[1 := Node(KIND_FILE, "a.py", "a.py", 0, "python", ""),
                               2 := Node("function", "util", "a.py", 2, "python", "")],
                           map[], map[], map[], 3, 1)

  const OWN_JOB := Job("a.py", "python", [Symbol(KIND_FILE, "a.py", 0, 0, ""), Symbol("function", "util", 2, 3, "")],
                       (name: string) => false, [])

  const OWN_IMPORT := [Import("util", 1, [Found(2, "function")])]

  // It is never indexed again, whatever the batch for it.
  lemma OwnImportIsRefused(edges: seq<Edge>, refs: seq<Ref>, record: Option<(string, string)>)
    requires Answers(OWN_JOB, OWN_IMPORT, edges, refs)
    ensures Valid(OWN_STORE) && Prepares(OWN_JOB, OWN_IMPORT, OWN_STORE.nextNode)
    ensures Replaced(OWN_STORE, OWN_JOB.file, BatchOf(OWN_JOB, edges, refs, record)) == None
  {
    hide Replaced, Answers;
    var q := OWN_IMPORT[0];
    assert Preferred(q.found) == 2;
    assert !ImportStands(OWN_STORE, OWN_JOB.file, q);
    BuiltBatchCommitsExactly(OWN_STORE, OWN_JOB, OWN_IMPORT, edges, refs, record);
  }

  // And there is such a batch.
  lemma OwnImportIsAnswered()
    ensures Answers(OWN_JOB, OWN_IMPORT, [Edge(EdgeKey(-1, 2, "imports", 1, 0), EdgeRow("a.py", "exact", ""))], [])
  {
    var e := Edge(EdgeKey(-1, 2, "imports", 1, 0), EdgeRow("a.py", "exact", ""));
    var q := OWN_IMPORT[0];
    assert Preferred(q.found) == 2;
    assert Serves(OWN_JOB, q, e) && e in [e] && q in OWN_IMPORT;
    assert Served(OWN_JOB, q, [e]) && ServesOne(OWN_JOB, OWN_IMPORT, e);
  }

  lemma SomeIdIsNext(s: Store)
    requires Valid(s)
    ensures s.nextNode > 0
  {
  }

  lemma TidyRefReaches(s: Store, file: string, b: Batch, r: Ref)
    requires Tidy(b, file) && r in b.refs
    ensures Reaches(s, file, b, r.key.from)
  {
  }

  // An edge between the rows with these two keys, at this place.
  ghost predicate EdgeBetween(t: Store, source: NodeKey, target: NodeKey, kind: string, line: int, col: int,
                              file: string) {
    exists k :: k in t.edges && k.source in t.nodes && k.target in t.nodes
      && KeyOf(t.nodes[k.source]) == source && KeyOf(t.nodes[k.target]) == target
      && k.kind == kind && k.line == line && k.col == col && t.edges[k] == EdgeRow(file, "exact", "")
  }

  lemma ServedEdgeLands(s: Store, j: Job, qs: seq<Request>, edges: seq<Edge>, refs: seq<Ref>,
                        record: Option<(string, string)>, q: Request, e: Edge)
    requires Valid(s) && Prepares(j, qs, s.nextNode) && Answers(j, qs, edges, refs)
    requires Replaced(s, j.file, BatchOf(j, edges, refs, record)).Some?
    requires q in qs && e in edges && Serves(j, q, e)
    ensures var b := BatchOf(j, edges, refs, record);
            && Reaches(s, j.file, b, e.key.source) && Reaches(s, j.file, b, e.key.target)
            && EdgeBetween(Replaced(s, j.file, b).value,
                           Meant(s, j.file, b, e.key.source), Meant(s, j.file, b, e.key.target),
                           e.key.kind, e.key.line, e.key.col, j.file)
  {
    hide Valid, Replaced, Reaches, Meant, Serves, Prepares, Answers, Joins, EdgesElsewhere;
    var b := BatchOf(j, edges, refs, record);
    assert s.nextNode > 0 by { SomeIdIsNext(s); }
    BuiltBatchIsTidy(j, qs, edges, refs, record, s.nextNode);
    ReplaceJoinsWhatWasMeant(s, j.file, b);
    var t := Replaced(s, j.file, b).value;
    assert e in b.edges;
    var k :| Wanted(s, j.file, b, t, e, k);
    WantedIsHere(s, j, qs, edges, refs, record, q, e, k);
    if f :| f in b.edges && Wanted(s, j.file, b, t, f, k) && t.edges[k] == f.row {
      BuiltRow(j, qs, edges, refs, f);
    }
    JoinsEnds(t, k, e, Meant(s, j.file, b, e.key.source), Meant(s, j.file, b, e.key.target));
  }

  lemma JoinsEnds(t: Store, k: EdgeKey, e: Edge, source: NodeKey, target: NodeKey)
    requires k in t.edges && Joins(t, k, e, source, target)
    ensures k.source in t.nodes && k.target in t.nodes
    ensures KeyOf(t.nodes[k.source]) == source && KeyOf(t.nodes[k.target]) == target
    ensures k.kind == e.key.kind && k.line == e.key.line && k.col == e.key.col
  {
  }

  lemma BuiltRow(j: Job, qs: seq<Request>, edges: seq<Edge>, refs: seq<Ref>, e: Edge)
    requires Answers(j, qs, edges, refs) && e in edges
    ensures e.row == EdgeRow(j.file, "exact", "")
  {
    assert ServesOne(j, qs, e);
    var q :| q in qs && Serves(j, q, e);
    hide Preferred, Means;
  }

  // An edge of the batch is no old edge between other files: it starts at a row
  // of this one.
  lemma WantedIsHere(s: Store, j: Job, qs: seq<Request>, edges: seq<Edge>, refs: seq<Ref>,
                     record: Option<(string, string)>, q: Request, e: Edge, k: EdgeKey)
    requires Valid(s) && Prepares(j, qs, s.nextNode) && q in qs && Serves(j, q, e)
    requires Replaced(s, j.file, BatchOf(j, edges, refs, record)).Some?
    requires Wanted(s, j.file, BatchOf(j, edges, refs, record),
                    Replaced(s, j.file, BatchOf(j, edges, refs, record)).value, e, k)
    ensures EdgesPoint(s) && k !in EdgesElsewhere(s, j.file)
  {
    hide Replaced, Serves, KeysUnique, RefsPoint, RefIdsUnique, QueuesModules, Reaches;
    var b := BatchOf(j, edges, refs, record);
    var t := Replaced(s, j.file, b).value;
    ReplaceKeepsKeys(s, j.file, b);
    ServedEdgeShape(j, qs, q, e);
    RowMeant(s, j, b, -(e.key.source + 1));
    JoinsEnds(t, k, e, Meant(s, j.file, b, e.key.source), Meant(s, j.file, b, e.key.target));
    assert KeyOf(t.nodes[k.source]).file == j.file;
    assert k.source in s.nodes ==> KeyOf(t.nodes[k.source]) == KeyOf(s.nodes[k.source]);
  }

  lemma LinkEdgeIs(j: Job, q: Request, e: Edge, i: int)
    requires q.Link? && Serves(j, q, e) && Means(j.symbols, q.name, q.line, i)
    ensures 0 <= i < |j.symbols|
    ensures e.key == EdgeKey(Placeholder(q.from), Placeholder(i), q.kind, q.line, q.col)
  {
    var h :| Means(j.symbols, q.name, q.line, h)
      && e == Edge(EdgeKey(Placeholder(q.from), Placeholder(h), q.kind, q.line, q.col), EdgeRow(j.file, "exact", ""));
    MeansOneSymbol(j.symbols, q.name, q.line, h, i);
  }

  lemma RowMeant(s: Store, j: Job, b: Batch, i: int)
    requires b.nodes == Rows(j) && 0 <= i < |j.symbols|
    ensures Reaches(s, j.file, b, Placeholder(i))
    ensures Meant(s, j.file, b, Placeholder(i)) == KeyOf(ToNode(j.file, j.lang, j.symbols[i]))
  {
  }

  lemma ModuleMeant(s: Store, j: Job, qs: seq<Request>, b: Batch, q: Request, e: Edge)
    requires RequestsFit(j, qs) && QueuesModules(j.lang, qs, j.modules) && q in qs && Serves(j, q, e) && NeedsModule(q)
    requires b.nodes == Rows(j) && b.modules == j.modules && Reaches(s, j.file, b, e.key.target)
    ensures Meant(s, j.file, b, e.key.target) == KeyOf(ModuleNode(q.name, j.lang))
  {
    ServedEdgeShape(j, qs, q, e);
    QueuedModuleShape(j.lang, qs, j.modules, -(e.key.target + 1) - |j.symbols|);
  }

  // Once committed, a reference to a symbol of the same file joins exactly the
  // rows of the two symbols it is between.
  lemma EveryLinkLands(s: Store, j: Job, qs: seq<Request>, edges: seq<Edge>, refs: seq<Ref>,
                       record: Option<(string, string)>, q: Request, i: int)
    requires Valid(s) && Prepares(j, qs, s.nextNode) && Answers(j, qs, edges, refs)
    requires Replaced(s, j.file, BatchOf(j, edges, refs, record)).Some?
    requires q in qs && q.Link? && q.from >= 0 && Means(j.symbols, q.name, q.line, i)
    ensures 0 <= i < |j.symbols| && q.from < |j.symbols|
    ensures EdgeBetween(Replaced(s, j.file, BatchOf(j, edges, refs, record)).value,
                        NodeKey(j.file, j.symbols[q.from].line, j.symbols[q.from].kind, j.symbols[q.from].name),
                        NodeKey(j.file, j.symbols[i].line, j.symbols[i].kind, j.symbols[i].name),
                        q.kind, q.line, q.col, j.file)
  {
    hide Valid, Replaced, ParksLink, RefNameTail, EdgeBetween, Serves, Means, Meant, Reaches, QueuesModules;
    assert WantsEdge(j, q);
    assert Served(j, q, edges);
    var e :| e in edges && Serves(j, q, e);
    LinkEdgeIs(j, q, e, i);
    ServedEdgeLands(s, j, qs, edges, refs, record, q, e);
    RowMeant(s, j, BatchOf(j, edges, refs, record), q.from);
    RowMeant(s, j, BatchOf(j, edges, refs, record), i);
  }

  // Once committed, an import joins the file's row to the row found for it, or
  // to the module row created under its name.
  lemma EveryImportLands(s: Store, j: Job, qs: seq<Request>, edges: seq<Edge>, refs: seq<Ref>,
                         record: Option<(string, string)>, q: Request)
    requires Valid(s) && Prepares(j, qs, s.nextNode) && Answers(j, qs, edges, refs)
    requires Replaced(s, j.file, BatchOf(j, edges, refs, record)).Some?
    requires q in qs && q.Import?
    ensures q.found != [] ==> Preferred(q.found) in s.nodes
    ensures EdgeBetween(Replaced(s, j.file, BatchOf(j, edges, refs, record)).value,
                        NodeKey(j.file, j.symbols[0].line, j.symbols[0].kind, j.symbols[0].name),
                        if q.found != [] then KeyOf(s.nodes[Preferred(q.found)])
                        else NodeKey(q.name, 0, "module", q.name),
                        "imports", q.line, 0, j.file)
  {
    hide Valid, Replaced, ParksLink, RefNameTail, EdgeBetween, Serves, Means, Meant, Reaches, Preferred, QueuesModules;
    assert WantsEdge(j, q);
    assert Served(j, q, edges);
    var e :| e in edges && Serves(j, q, e);
    ServedEdgeLands(s, j, qs, edges, refs, record, q, e);
    RowMeant(s, j, BatchOf(j, edges, refs, record), 0);
    ImportEdgeIs(j, q, e);
    if q.found == [] {
      ModuleMeant(s, j, qs, BatchOf(j, edges, refs, record), q, e);
    } else {
      FoundMeant(s, j.file, BatchOf(j, edges, refs, record), Preferred(q.found));
    }
  }

  // A module if one was found, the first of them, else the first found.
  lemma {:induction false} PreferredIs(found: seq<Found>)
    requires found != []
    ensures exists i :: 0 <= i < |found| && Preferred(found) == found[i].id
              && if exists k :: 0 <= k < |found| && found[k].kind == "module" then
                   found[i].kind == "module" && forall k :: 0 <= k < i ==> found[k].kind != "module"
                 else i == 0
  {
    if exists i :: 0 <= i < |found| && found[i].kind == KIND_MODULE {
      var i := FirstModuleAt(found);
      assert Preferred(found) == found[i].id;
    } else {
      assert Preferred(found) == found[0].id;
    }
  }

  lemma {:induction false} FirstModuleAt(found: seq<Found>) returns (i: nat)
    requires exists k :: 0 <= k < |found| && found[k].kind == KIND_MODULE
    ensures i < |found| && FirstModule(found) == found[i].id && found[i].kind == "module"
    ensures forall k :: 0 <= k < i ==> found[k].kind != "module"
  {
    i := 0;
    if found[0].kind != KIND_MODULE {
      var k :| 0 <= k < |found| && found[k].kind == KIND_MODULE;
      assert found[1..][k - 1].kind == KIND_MODULE;
      var j := FirstModuleAt(found[1..]);
      i := j + 1;
      assert forall k :: 0 < k < i ==> found[k] == found[1..][k - 1];
    }
  }

  // Once committed, each symbol has a row of its own, with all that was
  // extracted of it, and the file has no other rows. A module made for an
  // import is filed under its own name, at line 0.
  lemma EverySymbolLands(s: Store, j: Job, edges: seq<Edge>, refs: seq<Ref>, record: Option<(string, string)>)
    requires Valid(s) && forall i, k :: 0 <= i < k < |j.symbols| ==> !SameKey(j.symbols[i], j.symbols[k])
    requires Replaced(s, j.file, BatchOf(j, edges, refs, record)).Some?
    ensures var t := Replaced(s, j.file, BatchOf(j, edges, refs, record)).value;
            var ids := Prepared(s, j.file, BatchOf(j, edges, refs, record)).1;
            && |ids| == |j.symbols| && (forall r :: r in t.nodes && t.nodes[r].file == j.file ==> r in ids)
            && forall i :: 0 <= i < |ids| ==>
                 ids[i] in t.nodes &&
                 var row, symbol := t.nodes[ids[i]], j.symbols[i];
                 && row.kind == symbol.kind && row.name == symbol.name && row.file == j.file && row.line == symbol.line
                 && row.language == j.lang && row.details == symbol.details
  {
    hide Valid, Replaced, Prepared;
    var b := BatchOf(j, edges, refs, record);
    ReplaceLeavesTheRows(s, j.file, b);
    var t, ids := Replaced(s, j.file, b).value, Prepared(s, j.file, b).1;
    forall i | 0 <= i < |ids|
      ensures t.nodes[ids[i]] == b.nodes[i]
    {
      assert KeyOf(t.nodes[ids[i]]) == KeyOf(b.nodes[i]);
      forall k | i < k < |b.nodes|
        ensures KeyOf(b.nodes[k]) != KeyOf(b.nodes[i])
      {
        assert !SameKey(j.symbols[i], j.symbols[k]);
      }
      assert LastNode(b.nodes, i, KeyOf(b.nodes[i]));
      assert RowAfter(s, j.file, b, t, ids[i]);
    }
  }

  lemma ModulesAreThemselves(lang: string, qs: seq<Request>, modules: seq<Node>)
    requires QueuesModules(lang, qs, modules)
    ensures forall n :: n in modules ==>
              n.kind == "module" && n.file == n.name && n.line == 0 && n.language == lang
              && exists q :: q in qs && q.Import? && q.found == [] && q.name == n.name
  {
    forall n | n in modules
      ensures n.kind == "module" && n.file == n.name && n.line == 0 && n.language == lang
              && exists q :: q in qs && q.Import? && q.found == [] && q.name == n.name
    {
      var m :| 0 <= m < |modules| && modules[m] == n;
      assert Asked(qs, modules[m].name);
      var q :| q in qs && NeedsModule(q) && q.name == n.name;
    }
  }

  lemma ImportEdgeIs(j: Job, q: Request, e: Edge)
    requires q.Import? && Serves(j, q, e)
    ensures e.key == EdgeKey(Placeholder(0), e.key.target, "imports", q.line, 0)
    ensures q.found != [] ==> e.key.target == Preferred(q.found)
  {
    hide Preferred;
  }

  lemma FoundMeant(s: Store, file: string, b: Batch, v: int)
    requires v > 0 && Reaches(s, file, b, v)
    ensures v in s.nodes && Meant(s, file, b, v) == KeyOf(s.nodes[v])
  {
  }

  lemma QueuedModuleShape(lang: string, qs: seq<Request>, modules: seq<Node>, m: int)
    requires QueuesModules(lang, qs, modules) && 0 <= m < |modules|
    ensures modules[m] == ModuleNode(modules[m].name, lang)
  {
  }

  // index_writer.go, from the deduplicated symbols on: build the batch, park the
  // inbound edges, replace the file's rows.
  method IndexFile(db: DB, file: string, lang: string, extracted: seq<Symbol>, qs: seq<Request>,
                   parkable: string -> bool, record: Option<(string, string)>)
    returns (outcome: Outcome, ghost j: Job, ghost b: Batch, ghost parked: Store)
    requires Valid(db.store) && file != ""
    requires forall q :: q in qs && q.Link? ==> q.from < |FirstOfEach([Symbol(KIND_FILE, file, 0, 0, "")] + extracted)|
    requires forall q :: q in qs && q.Import? && q.found != [] ==> 0 < Preferred(q.found) < db.store.nextNode
    modifies db
    ensures Valid(db.store) && (Anchored(old(db.store)) ==> Anchored(db.store))
    ensures parked == old(db.store) || Parked(old(db.store), file, parked)
    ensures outcome == Broken <==> db.faults != old(db.faults)
    ensures outcome == Rejected ==> exists q :: q in qs && q.Import? && !ImportStands(parked, file, q)
    ensures outcome != Committed ==> db.store == parked
    ensures outcome == Committed ==>
              && Parked(old(db.store), file, parked) && Valid(parked)
              && Replaced(parked, file, b) == Some(db.store)
              && Tidy(b, file)
              && j.file == file && j.symbols == FirstOfEach([Symbol(KIND_FILE, file, 0, 0, "")] + extracted)
              && Prepares(j, qs, parked.nextNode) && Answers(j, qs, b.edges, b.refs)
              && b == BatchOf(j, b.edges, b.refs, record)
  {
    hide Valid, Anchored, Parked, Replaced, Prepared, Answers, QueuesModules, Preferred, ImportStands,
         FirstOfEach, Tidy, RefNameTail;
    ghost var before := db.store;
    var symbols := Dedupe([Symbol(KIND_FILE, file, 0, 0, "")] + extracted);
    assert symbols != [] by { FirstOfEachIs([Symbol(KIND_FILE, file, 0, 0, "")] + extracted); }
    var modules, index := QueueModules(lang, qs);
    var job := Job(file, lang, symbols, parkable, modules);
    var edges, refs := Answer(job, index, qs);
    j, b, parked := job, BatchOf(job, edges, refs, record), before;
    SomeIdIsNext(before);
    outcome := db.ParkInboundRefsForFile(file);
    if outcome != Committed {
      return;
    }
    parked := db.store;
    assert parked.nextNode == before.nextNode by { ParkedGivesNoIds(before, file, parked); }
    if Anchored(before) {
      ParkedKeepsAnchors(before, file, parked);
    }
    BuiltBatchIsTidy(job, qs, edges, refs, record, parked.nextNode);
    BuiltBatchCommitsExactly(parked, job, qs, edges, refs, record);
    var ids;
    outcome, ids := db.ReplaceFileIndex(file, BatchOf(job, edges, refs, record));
    if outcome == Committed && Anchored(before) {
      ReplaceKeepsHabits(parked, file, b, 0);
    }
  }

  lemma ParkedGivesNoIds(s: Store, file: string, t: Store)
    requires Parked(s, file, t)
    ensures t.nextNode == s.nextNode && t.nodes == s.nodes
  {
  }
}
