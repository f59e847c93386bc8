/** The life of one unresolved reference through a run of the store: what can
    take it away once it is parked, and how often it can fail. */
module RefLives {
  import opened IndexStore
  import opened FileReplacement
  import opened Parking
  import opened Database
  import opened StoreRuns

  // The row is still the one with this id.
  predicate Alive(s: Store, r: RefKey, id: int) {
    r in s.refs && s.refs[r].id == id
  }

  // The step deletes the row with this id.
  predicate Deletes(step: Step, id: int) {
    (step.DropRef? && step.refId == id) || (step.ApplyBatch? && exists p :: p in step.resolved && p.1 == id)
  }

  predicate Marks(step: Step, id: int) {
    step.Mark? && step.refId == id
  }

  // The step parks an edge under the key of the row.
  ghost predicate Reparks(s: Store, step: Step, r: RefKey) {
    step.Park? && exists k :: ParkedBy(s, step.file, k, r)
  }

  // ---- One step ---------------------------------------------------------------

  lemma ParkPasses(s: Store, file: string, t: Store, r: RefKey)
    requires Valid(s) && Parked(s, file, t)
    ensures IdsForward(s, t) && t.nodes == s.nodes && t.nextNode == s.nextNode
    ensures r in s.refs ==> r in t.refs && t.refs[r].id == s.refs[r].id
    ensures r in s.refs && (forall k :: !ParkedBy(s, file, k, r)) ==> t.refs[r] == s.refs[r]
    ensures r in s.refs && s.refs[r].status == PENDING ==> t.refs[r].status == PENDING
  {
    hide Valid, ParkedBy;
    if r in s.refs {
      KeptCount(s, file, s.edges.Keys, t, r);
      if k0 :| k0 in s.edges.Keys && ParkedBy(s, file, k0, r) {
        var k :| k in s.edges.Keys && ParkedAs(s, file, k, r, t.refs[r]);
      }
    }
  }

  lemma ReplacePasses(s: Store, file: string, b: Batch, r: RefKey)
    requires Valid(s) && Anchored(s) && Tidy(b, file) && Replaced(s, file, b).Some? && r in s.refs
    ensures var t := Replaced(s, file, b).value;
            && (r in t.refs <==> r.from in t.nodes)
            && (r in t.refs ==> t.refs[r] == s.refs[r])
  {
    hide Prepared, Replaced, Tidy, EdgesPoint, RefIdsUnique, KeysUnique;
    if s.nodes[r.from].file != file {
      ForeignRefOutlivesReplace(s, file, b, r);
    } else {
      PreparedNodes(s, file, b);
      ReplacedTables(s, file, b);
      ReplaceKeepsValid(s, file, b);
      assert r.from < s.nextNode;
    }
  }

  lemma ClearPasses(s: Store, file: string, r: RefKey)
    requires Valid(s) && Anchored(s) && r in s.refs
    ensures var t := WithoutFile(s, file);
            && (r in t.refs <==> r.from in t.nodes)
            && (r in t.refs ==> t.refs[r] == s.refs[r])
            && IdsForward(s, t)
  {
  }

  lemma {:induction false} BatchPasses(s: Store, batch: seq<(Edge, int)>, r: RefKey)
    requires ApplyAll(s, batch).Some?
    ensures var t := ApplyAll(s, batch).value;
            && t.nodes == s.nodes && t.nextRef == s.nextRef
            && (r in t.refs <==> r in s.refs && forall p :: p in batch ==> p.1 != s.refs[r].id)
            && (r in t.refs ==> t.refs[r] == s.refs[r])
  {
    if batch != [] {
      var init, last := batch[..|batch| - 1], batch[|batch| - 1];
      BatchPasses(s, init, r);
      assert forall p :: p in batch <==> p in init || p == last;
    }
  }

  // Foreign steps leave the row as it is; it goes when it is deleted by its id
  // or the row it starts at goes, and for nothing else.
  lemma RefThrough(w: World, step: Step, v: World, cap: int, r: RefKey)
    requires Inv(w, cap) && Next(w, step, v, cap) && r in w.store.refs
    ensures var row, t := w.store.refs[r], v.store;
            && (r in t.refs <==> r.from in t.nodes && !Deletes(step, row.id))
            && (r in t.refs ==> t.refs[r].id == row.id)
            && (r in t.refs && row.status == PENDING && !Marks(step, row.id) ==> t.refs[r].status == PENDING)
            && (r in t.refs && Marks(step, row.id) ==> t.refs[r] == Failing(row, step.tail, cap))
            && (r in t.refs && !Marks(step, row.id) && !Reparks(w.store, step, r) ==> t.refs[r] == row)
  {
    hide Replaced, Tidy, Parked, WithoutFile, ApplyAll, UpsertAll, KeysUnique, EdgesPoint, RefIdsUnique, Anchored, Aged;
    var s, t := w.store, v.store;
    match step
    case Park(file) => ParkPasses(s, file, t, r);
    case Replace(file, b) => ReplacePasses(s, file, b, r);
    case Clear(file) => ClearPasses(s, file, r);
    case ApplyBatch(resolved) => BatchPasses(s, resolved, r);
    case Synthesize(es) => SynthesisPasses(s, es);
    case _ =>
  }

  lemma SynthesisPasses(s: Store, es: seq<Edge>)
    requires Valid(s) && UpsertAll(WithoutSynthesized(s), es).Some?
    ensures var t := UpsertAll(WithoutSynthesized(s), es).value;
            t.nodes == s.nodes && t.refs == s.refs && t.nextRef == s.nextRef
  {
    WithoutSynthesizedValid(s);
    UpsertAllKeeps(WithoutSynthesized(s), es);
  }

  lemma RefIdsGoForward(w: World, step: Step, v: World, cap: int)
    requires Inv(w, cap) && Next(w, step, v, cap)
    ensures IdsForward(w.store, v.store)
  {
    hide Replaced, Tidy, Parked, ApplyAll, UpsertAll, KeysUnique, EdgesPoint, RefIdsUnique, Anchored, Aged;
    var s, t := w.store, v.store;
    match step
    case Park(file) => ParkForward(s, file, t);
    case Replace(file, b) => ReplaceMovesIdsForward(s, file, b);
    case ApplyBatch(resolved) =>
      BatchPasses(s, resolved, RefKey(0, "", "", 0, 0));
      forall r {
        BatchPasses(s, resolved, r);
      }
    case Synthesize(es) => SynthesisPasses(s, es);
    case _ =>
  }

  lemma ParkForward(s: Store, file: string, t: Store)
    requires Parked(s, file, t)
    ensures IdsForward(s, t)
  {
  }

  // ---- What no run loses --------------------------------------------------------

  // Rows keep their keys, and ids once handed out never come back.
  ghost predicate RowsForward(s: Store, t: Store) {
    && s.nextNode <= t.nextNode
    && forall i :: i in t.nodes ==> (i in s.nodes && KeyOf(t.nodes[i]) == KeyOf(s.nodes[i])) || i >= s.nextNode
  }

  lemma RowsGoForward(w: World, step: Step, v: World, cap: int)
    requires Inv(w, cap) && Next(w, step, v, cap)
    ensures RowsForward(w.store, v.store)
  {
    hide Replaced, Tidy, Parked, ApplyAll, UpsertAll, KeysUnique, EdgesPoint, RefIdsUnique, Anchored, Aged;
    var s, t := w.store, v.store;
    match step
    case Park(file) => ParkPasses(s, file, t, RefKey(0, "", "", 0, 0));
    case Replace(file, b) => ReplaceMovesRowsForward(s, file, b);
    case ApplyBatch(resolved) =>
      BatchPasses(s, resolved, RefKey(0, "", "", 0, 0));
      ApplyAllKeepsHabits(s, resolved, cap);
    case Synthesize(es) => SynthesizeKeepsHabits(s, es, cap);
    case _ =>
  }

  lemma ReplaceMovesRowsForward(s: Store, file: string, b: Batch)
    requires Valid(s) && Replaced(s, file, b).Some?
    ensures RowsForward(s, Replaced(s, file, b).value)
  {
    hide Replaced;
    ReplaceKeepsKeys(s, file, b);
  }

  lemma {:induction false} RunGoesForward(ws: seq<World>, steps: seq<Step>, cap: int, m: nat, n: nat)
    requires Run(ws, steps, cap) && m <= n < |ws|
    ensures RowsForward(ws[m].store, ws[n].store) && IdsForward(ws[m].store, ws[n].store)
  {
    hide Next, Inv;
    if m < n {
      RunGoesForward(ws, steps, cap, m, n - 1);
      EveryRunKeeps(ws, steps, cap, n - 1);
      RefIdsGoForward(ws[n - 1], steps[n - 1], ws[n], cap);
      RowsGoForward(ws[n - 1], steps[n - 1], ws[n], cap);
    }
  }

  // Once a file is cleared or the index wiped, no later row and no later ref
  // has an id that one of the rows dropped had before.
  lemma DroppedIdsNeverReturn(ws: seq<World>, steps: seq<Step>, cap: int, m: nat, n: nat, id: int)
    requires Run(ws, steps, cap) && m < n < |ws| && (steps[m].Clear? || steps[m].Wipe?)
    requires id in ws[m].store.nodes && (steps[m].Clear? ==> ws[m].store.nodes[id].file == steps[m].file)
    ensures id !in ws[n].store.nodes
    ensures forall k :: k in ws[n].store.edges ==> k.source != id && k.target != id
    ensures forall r :: r in ws[n].store.refs ==> r.from != id
    ensures steps[m].Wipe? ==> forall r :: r in ws[n].store.refs ==> ws[n].store.refs[r].id >= ws[m].store.nextRef
  {
    hide Anchored, Aged, KeysUnique, RefIdsUnique;
    EveryRunKeeps(ws, steps, cap, m);
    EveryRunKeeps(ws, steps, cap, n);
    RunGoesForward(ws, steps, cap, m + 1, n);
    assert Next(ws[m], steps[m], ws[m + 1], cap);
    assert id < ws[m + 1].store.nextNode && id !in ws[m + 1].store.nodes;
  }

  // The step leaves the ref alone.
  predicate Spares(w: World, step: Step, r: RefKey) {
    r in w.store.refs ==> !Deletes(step, w.store.refs[r].id) && !Marks(step, w.store.refs[r].id)
  }

  // As long as its source lives, a step leaves a pending ref pending exactly
  // when it does not delete or mark it by its id.
  lemma SparedExactly(w: World, step: Step, v: World, cap: int, r: RefKey)
    requires Inv(w, cap) && Next(w, step, v, cap)
    requires r in w.store.refs && w.store.refs[r].status == PENDING && r.from in v.store.nodes
    ensures (r in v.store.refs && v.store.refs[r].status == PENDING) <==> Spares(w, step, r)
  {
    hide Next, Inv;
    RefThrough(w, step, v, cap, r);
  }

  ghost predicate Waits(s: Store, t: Store, r: RefKey) {
    && s.nextNode <= t.nextNode
    && (r.from in t.nodes ==>
          && r in t.refs && t.refs[r].status == PENDING && t.refs[r].filePath == t.nodes[r.from].file
          && r.from in s.nodes && KeyOf(t.nodes[r.from]) == KeyOf(s.nodes[r.from]))
  }

  lemma {:induction false} SparedRefWaits(ws: seq<World>, steps: seq<Step>, cap: int, n: nat, m: nat, r: RefKey)
    requires Run(ws, steps, cap) && n <= m < |ws|
    requires r in ws[n].store.refs && ws[n].store.refs[r].status == PENDING
    requires forall j :: n <= j < m ==> Spares(ws[j], steps[j], r)
    ensures Waits(ws[n].store, ws[m].store, r)
  {
    hide Next, Spares, Aged;
    EveryRunKeeps(ws, steps, cap, m);
    if n < m {
      SparedRefWaits(ws, steps, cap, n, m - 1, r);
      EveryRunKeeps(ws, steps, cap, m - 1);
      EveryRunKeeps(ws, steps, cap, n);
      WaitsOn(ws[n].store, ws[m - 1], steps[m - 1], ws[m], cap, r);
    }
  }

  lemma WaitsOn(s: Store, w: World, step: Step, v: World, cap: int, r: RefKey)
    requires Inv(w, cap) && Inv(v, cap) && Next(w, step, v, cap)
    requires r.from < s.nextNode && Waits(s, w.store, r) && Spares(w, step, r)
    ensures Waits(s, v.store, r)
  {
    hide Next, Spares, Aged;
    RowsGoForward(w, step, v, cap);
    if r.from in v.store.nodes {
      SparedExactly(w, step, v, cap, r);
    }
  }

  // Park a file's inbound edges, and let every other writer go on, this file's
  // replacement among them: at any later time either the source row of such an
  // edge is gone, or its ref waits under the edge's name, kind, line and
  // column, unless a resolution has deleted it or marked it failed.
  lemma NoRunLosesInboundEdges(ws: seq<World>, steps: seq<Step>, cap: int, n: nat, m: nat, k: EdgeKey)
    requires Run(ws, steps, cap) && n < m < |ws|
    requires steps[n].Park? && Inbound(ws[n].store, steps[n].file, k)
    requires forall j :: n < j < m ==> Spares(ws[j], steps[j], ParkedKey(ws[n].store, k))
    ensures var s, t := ws[n].store, ws[m].store;
            var r := RefKey(k.source, s.nodes[k.target].name, k.kind, k.line, k.col);
            k.source in t.nodes ==>
              && r in t.refs && t.refs[r].status == PENDING && t.refs[r].filePath == s.nodes[k.source].file
              && KeyOf(t.nodes[k.source]) == KeyOf(s.nodes[k.source])
  {
    hide Tidy, Inbound, Parked, Valid, Anchored, Aged, Spares, Replaced;
    var s, file := ws[n].store, steps[n].file;
    InboundEnds(s, file, k);
    var r := ParkedKey(s, k);
    EveryRunKeeps(ws, steps, cap, n);
    assert Next(ws[n], steps[n], ws[n + 1], cap);
    assert ParkedBy(s, file, k, r);
    ParkedRefIsAnchored(s, file, ws[n + 1].store, k, r);
    SparedRefWaits(ws, steps, cap, n + 1, m, r);
    ParkPasses(s, file, ws[n + 1].store, r);
    assert k.source in ws[m].store.nodes ==> KeyOf(ws[m].store.nodes[k.source]).file == s.nodes[k.source].file;
  }

  // Without its parked ref an inbound edge does not survive the replacement:
  // neither the ref nor any edge from its source into the file is left.
  lemma LostWithoutItsRef(s: Store, file: string, b: Batch, k: EdgeKey)
    requires Valid(s) && Tidy(b, file) && Replaced(s, file, b).Some?
    requires k.source in s.nodes && s.nodes[k.source].file != file
    ensures var t := Replaced(s, file, b).value;
            && (forall r :: r in t.refs && r.from == k.source ==> r in s.refs)
            && (forall j :: j in t.edges && j.source == k.source ==>
                  j.target in t.nodes && t.nodes[j.target].file != file)
  {
    hide Replaced, Prepared, KeysUnique;
    ReplaceLeavesTheRefs(s, file, b);
    forall q | q in b.refs
      ensures forall r :: RefFor(s, file, b, q, r) ==> r.from != k.source
    {
      BatchRefStartsFresh(s, file, b, q);
    }
    EdgesIntoFile(s, file, b, k.source);
  }

  lemma EdgesIntoFile(s: Store, file: string, b: Batch, source: int)
    requires Valid(s) && Tidy(b, file) && Replaced(s, file, b).Some?
    requires source in s.nodes && s.nodes[source].file != file
    ensures var t := Replaced(s, file, b).value;
            forall j :: j in t.edges && j.source == source ==> j.target in t.nodes && t.nodes[j.target].file != file
  {
    hide Replaced, Prepared, KeysUnique, Tidy, RefIdsUnique, RefsPoint;
    var t := Replaced(s, file, b).value;
    var (p, ids, moduleIds) := Prepared(s, file, b);
    EdgesOfReplaced(s, file, b);
    PreparedIds(s, file, b);
    PreparedNodes(s, file, b);
    forall j | j in t.edges && j.source == source
      ensures j.target in t.nodes && t.nodes[j.target].file != file
    {
      if i :| 0 <= i < |b.edges| && LandsOn(ids, moduleIds, b.edges[i], j) {
        BatchEdgeStartsHere(s, file, b, b.edges[i]);
      } else {
        assert j in EdgesElsewhere(s, file);
        assert KeyOf(p.nodes[j.target]) == KeyOf(s.nodes[j.target]);
      }
    }
  }

  lemma EdgesOfReplaced(s: Store, file: string, b: Batch)
    requires Valid(s) && Replaced(s, file, b).Some?
    ensures var t := Replaced(s, file, b).value;
            var (p, ids, moduleIds) := Prepared(s, file, b);
            && t.nodes == p.nodes
            && forall j :: j in t.edges <==> j in EdgesElsewhere(s, file) || AnyLandsOn(ids, moduleIds, b.edges, j)
  {
    hide Prepared, InsertEdges, InsertRefs;
    PreparedTables(s, file, b);
    var (p, ids, moduleIds) := Prepared(s, file, b);
    InsertEdgesExactly(p, ids, moduleIds, b.edges);
    InsertRefsExactly(InsertEdges(p, ids, moduleIds, b.edges).value, ids, moduleIds, b.refs);
  }

  lemma BatchEdgeStartsHere(s: Store, file: string, b: Batch, e: Edge)
    requires Valid(s) && Tidy(b, file) && e in b.edges
    ensures var (p, ids, moduleIds) := Prepared(s, file, b);
            LandedEdge(ids, moduleIds, e).Some? ==> LandedEdge(ids, moduleIds, e).value.key.source >= s.nextNode
  {
    hide Prepared;
    PreparedIds(s, file, b);
    PreparedNodes(s, file, b);
    var (p, ids, moduleIds) := Prepared(s, file, b);
    var i := -(e.key.source + 1);
    assert b.nodes[i] in b.nodes;
    assert KeyOf(p.nodes[ids[i]]).file == file;
  }

  // The boundary: a resolution that deletes the parked ref between the two
  // transactions leaves neither the reference nor an edge in its place.
  lemma ResolvedBetweenIsLost(ws: seq<World>, steps: seq<Step>, cap: int, n: nat, k: EdgeKey)
    requires Run(ws, steps, cap) && n + 2 < |steps|
    requires steps[n].Park? && Inbound(ws[n].store, steps[n].file, k)
    requires var r := ParkedKey(ws[n].store, k);
             r in ws[n + 1].store.refs && Deletes(steps[n + 1], ws[n + 1].store.refs[r].id)
    requires steps[n + 2].Replace? && steps[n + 2].file == steps[n].file
    ensures var t := ws[n + 3].store;
            && k.source in t.nodes && ParkedKey(ws[n].store, k) !in t.refs
            && forall j :: j in t.edges && j.source == k.source ==>
                  j.target in t.nodes && t.nodes[j.target].file != steps[n].file
  {
    hide Tidy, Parked, Valid, Anchored, Aged, Replaced, ApplyAll;
    var s, file, r := ws[n].store, steps[n].file, ParkedKey(ws[n].store, k);
    EveryRunKeeps(ws, steps, cap, n);
    EveryRunKeeps(ws, steps, cap, n + 1);
    EveryRunKeeps(ws, steps, cap, n + 2);
    assert Next(ws[n], steps[n], ws[n + 1], cap) && Next(ws[n + 1], steps[n + 1], ws[n + 2], cap);
    assert Next(ws[n + 2], steps[n + 2], ws[n + 3], cap);
    ParkPasses(s, file, ws[n + 1].store, r);
    RefThrough(ws[n + 1], steps[n + 1], ws[n + 2], cap, r);
    DeletingKeepsRows(ws[n + 1], steps[n + 1], ws[n + 2], cap, ws[n + 1].store.refs[r].id);
    LostWithoutItsRef(ws[n + 2].store, file, steps[n + 2].batch, k);
    OtherRowsStay(ws[n + 2].store, file, steps[n + 2].batch);
  }

  lemma DeletingKeepsRows(w: World, step: Step, v: World, cap: int, id: int)
    requires Next(w, step, v, cap) && Deletes(step, id)
    ensures v.store.nodes == w.store.nodes
  {
    hide ApplyAll;
    if step.ApplyBatch? {
      ApplyAllExactly(w.store, step.resolved);
    }
  }

  lemma OtherRowsStay(s: Store, file: string, b: Batch)
    requires Valid(s) && Tidy(b, file) && Replaced(s, file, b).Some?
    ensures forall i :: i in s.nodes && s.nodes[i].file != file ==> i in Replaced(s, file, b).value.nodes
  {
    hide Replaced, Valid;
    ReplaceLeavesTheRows(s, file, b);
  }

  // ---- How often a ref fails ----------------------------------------------------

  // The retry queries select pending and failed rows.
  predicate Selectable(row: RefRow) {
    row.status == PENDING || row.status == FAILED
  }

  // How often the row with this id is found and marked failed from state m to n.
  ghost function Failures(ws: seq<World>, steps: seq<Step>, r: RefKey, id: int, m: nat, n: nat): nat
    requires n <= |steps| < |ws|
  {
    if n <= m then 0
    else
      Failures(ws, steps, r, id, m, n - 1)
      + if Alive(ws[n - 1].store, r, id) && Selectable(ws[n - 1].store.refs[r]) && Marks(steps[n - 1], id) then 1 else 0
  }

  function Allowance(row: RefRow, cap: int): int {
    if cap - row.attempts >= 1 then cap - row.attempts else 1
  }

  ghost predicate Tally(first: RefRow, s: Store, r: RefKey, cap: int, fails: nat) {
    && fails <= Allowance(first, cap)
    && (Alive(s, r, first.id) ==>
          var row := s.refs[r];
          && (Selectable(row) ==> fails < Allowance(first, cap) && row.attempts == first.attempts + fails
                                  && (fails > 0 ==> row.attempts < cap))
          && (!Selectable(row) ==> fails == Allowance(first, cap) && row.attempts >= cap))
  }

  lemma FailingSelectable(row: RefRow, tail: string, cap: int)
    ensures Selectable(Failing(row, tail, cap)) <==> row.attempts + 1 < cap
  {
    assert ABANDONED[0] != PENDING[0] && ABANDONED[0] != FAILED[0];
  }

  lemma TallyOn(first: RefRow, w: World, step: Step, v: World, r: RefKey, cap: int, fails: nat)
    requires Inv(w, cap) && Next(w, step, v, cap) && !Reparks(w.store, step, r)
    requires Tally(first, w.store, r, cap, fails) && first.id < w.store.nextRef
    ensures var counts := Alive(w.store, r, first.id) && Selectable(w.store.refs[r]) && Marks(step, first.id);
            Tally(first, v.store, r, cap, fails + if counts then 1 else 0)
  {
    hide Next, Reparks, Valid, Anchored, Selectable;
    RefIdsGoForward(w, step, v, cap);
    if r in w.store.refs {
      RefThrough(w, step, v, cap, r);
      if Marks(step, first.id) {
        FailingSelectable(w.store.refs[r], step.tail, cap);
      }
    }
  }

  // Between two parks of its key a pending or failed ref is found and marked
  // failed at most cap - attempts times, and once when the cap was used up
  // before; and it is still selected exactly while that is not reached.
  lemma {:induction false} FailsAtMostCap(ws: seq<World>, steps: seq<Step>, cap: int, r: RefKey, m: nat, n: nat)
    requires Run(ws, steps, cap) && m <= n < |ws|
    requires r in ws[m].store.refs && Selectable(ws[m].store.refs[r])
    requires forall j :: m <= j < n ==> !Reparks(ws[j].store, steps[j], r)
    ensures var first := ws[m].store.refs[r];
            var fails := Failures(ws, steps, r, first.id, m, n);
            && Tally(first, ws[n].store, r, cap, fails)
            && fails <= Allowance(first, cap)
            && (Alive(ws[n].store, r, first.id) ==>
                  (Selectable(ws[n].store.refs[r]) <==> fails < Allowance(first, cap)))
  {
    hide Next, Reparks, Valid, Anchored;
    var first := ws[m].store.refs[r];
    if m < n {
      FailsAtMostCap(ws, steps, cap, r, m, n - 1);
      EveryRunKeeps(ws, steps, cap, m);
      EveryRunKeeps(ws, steps, cap, n - 1);
      NextRefGrows(ws, steps, cap, m, n - 1);
      TallyOn(first, ws[n - 1], steps[n - 1], ws[n], r, cap, Failures(ws, steps, r, first.id, m, n - 1));
    }
  }

  lemma {:induction false} NextRefGrows(ws: seq<World>, steps: seq<Step>, cap: int, m: nat, n: nat)
    requires Run(ws, steps, cap) && m <= n < |ws|
    ensures ws[m].store.nextRef <= ws[n].store.nextRef
    ensures forall r :: r in ws[m].store.refs ==> ws[m].store.refs[r].id < ws[n].store.nextRef
  {
    hide Next, Anchored, Aged;
    EveryRunKeeps(ws, steps, cap, m);
    if m < n {
      NextRefGrows(ws, steps, cap, m, n - 1);
      EveryRunKeeps(ws, steps, cap, n - 1);
      RefIdsGoForward(ws[n - 1], steps[n - 1], ws[n], cap);
    }
  }
}
