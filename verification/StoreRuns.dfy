/** Every run of the store: what holds in each state however the writers are
    interleaved, with edges drafted from earlier reads still in flight. */
module StoreRuns {
  import opened Wrappers
  import opened IndexStore
  import opened FileReplacement
  import opened Parking
  import opened Database

  // `drafts` are edges some pass has decided on and not written yet. Each took
  // its source and its file from a ref or a node row it read, maybe long ago.
  datatype World = World(store: Store, drafts: set<Edge>)

  datatype Step =
    | Park(file: string)
    | Replace(file: string, batch: Batch)
    | Clear(file: string)
    | Wipe
    | DraftFromRef(ref: RefKey, draft: Edge)
    | DraftFromNode(id: int, draft: Edge)
    | ApplyBatch(resolved: seq<(Edge, int)>)
    | ApplyEdge(edge: Edge)
    | DropRef(refId: int)
    | Mark(refId: int, tail: string)
    | Synthesize(edges: seq<Edge>)
    | RolledBack

  // Step `step` can take world w to world v. The batch of a Replace is one the
  // indexer builds; edges are written from drafts only.
  ghost predicate Next(w: World, step: Step, v: World, cap: int) {
    var s, t := w.store, v.store;
    match step
    case Park(file) => v.drafts == w.drafts && Valid(t) && Parked(s, file, t)
    case Replace(file, b) => v.drafts == w.drafts && Tidy(b, file) && Replaced(s, file, b) == Some(t)
    case Clear(file) => v == w.(store := WithoutFile(s, file))
    case Wipe => v == w.(store := Wiped(s))
    case DraftFromRef(r, e) =>
      && r in s.refs && e.key.source == r.from && e.row.file == s.refs[r].filePath
      && v == w.(drafts := w.drafts + {e})
    case DraftFromNode(i, e) =>
      && i in s.nodes && e.key.source == i && e.row.file == s.nodes[i].file
      && v == w.(drafts := w.drafts + {e})
    case ApplyBatch(resolved) =>
      && (forall p :: p in resolved ==> p.0 in w.drafts)
      && v.drafts == w.drafts && ApplyAll(s, resolved) == Some(t)
    case ApplyEdge(e) => e in w.drafts && v.drafts == w.drafts && UpsertEdge(s, e) == Some(t)
    case DropRef(id) => v == w.(store := DeleteRef(s, id))
    case Mark(id, tail) => v == w.(store := MarkFailed(s, id, tail, cap))
    case Synthesize(es) =>
      && (forall e :: e in es ==> e in w.drafts)
      && v.drafts == w.drafts && UpsertAll(WithoutSynthesized(s), es) == Some(t)
    case RolledBack => v == w
  }

  // A draft is true of the row it starts at for as long as that row lives.
  ghost predicate True(s: Store, e: Edge) {
    e.key.source < s.nextNode && (e.key.source in s.nodes ==> s.nodes[e.key.source].file == e.row.file)
  }

  ghost predicate Inv(w: World, cap: int) {
    && Valid(w.store) && Anchored(w.store) && Aged(w.store, cap)
    && forall e :: e in w.drafts ==> True(w.store, e)
  }

  // Rows never change file and ids are never given out twice.
  ghost predicate RowsStay(s: Store, t: Store) {
    && s.nextNode <= t.nextNode
    && (forall i :: i in s.nodes && i in t.nodes ==> t.nodes[i].file == s.nodes[i].file)
    && (forall i :: i in t.nodes && i !in s.nodes ==> i >= s.nextNode)
  }

  lemma DraftsStayTrue(w: World, v: World, cap: int)
    requires Inv(w, cap) && RowsStay(w.store, v.store) && v.drafts == w.drafts
    ensures forall e :: e in v.drafts ==> True(v.store, e)
  {
  }

  lemma {:induction false} ApplyAllKeepsHabits(s: Store, batch: seq<(Edge, int)>, cap: int)
    requires Valid(s) && Anchored(s) && Aged(s, cap) && ApplyAll(s, batch).Some?
    requires forall p :: p in batch ==> True(s, p.0)
    ensures var t := ApplyAll(s, batch).value;
            Valid(t) && Anchored(t) && Aged(t, cap) && t.nodes == s.nodes && t.nextNode == s.nextNode
  {
    hide Valid, Anchored, Aged, DeleteRef;
    if batch != [] {
      var init, last := batch[..|batch| - 1], batch[|batch| - 1];
      assert forall p :: p in init ==> p in batch;
      assert last in batch;
      ApplyAllKeepsHabits(s, init, cap);
      var t := ApplyAll(s, init).value;
      ApplyOneKeepsHabits(t, last.0, last.1, cap);
    }
  }

  lemma ApplyOneKeepsHabits(s: Store, e: Edge, id: int, cap: int)
    requires Valid(s) && Anchored(s) && Aged(s, cap) && UpsertEdge(s, e).Some? && True(s, e)
    ensures var t := DeleteRef(UpsertEdge(s, e).value, id);
            Valid(t) && Anchored(t) && Aged(t, cap) && t.nodes == s.nodes && t.nextNode == s.nextNode
  {
    UpsertEdgeValid(s, e);
    DeleteRefValid(UpsertEdge(s, e).value, id);
  }

  lemma SynthesizeKeepsHabits(s: Store, es: seq<Edge>, cap: int)
    requires Valid(s) && Anchored(s) && Aged(s, cap) && UpsertAll(WithoutSynthesized(s), es).Some?
    requires forall e :: e in es ==> True(s, e)
    ensures var t := UpsertAll(WithoutSynthesized(s), es).value;
            Valid(t) && Anchored(t) && Aged(t, cap) && t.nodes == s.nodes && t.nextNode == s.nextNode
  {
    WithoutSynthesizedValid(s);
    UpsertAllKeeps(WithoutSynthesized(s), es);
  }

  lemma ClearKeepsHabits(s: Store, file: string, cap: int)
    requires Valid(s) && Anchored(s) && Aged(s, cap)
    ensures var t := WithoutFile(s, file); Valid(t) && Anchored(t) && Aged(t, cap) && RowsStay(s, t)
  {
    ClearedValid(s, file);
  }

  lemma ParkKeepsHabits(s: Store, file: string, t: Store, cap: int)
    requires Valid(s) && Anchored(s) && Aged(s, cap) && Parked(s, file, t)
    ensures Anchored(t) && Aged(t, cap) && RowsStay(s, t)
  {
    ParkedKeepsAnchors(s, file, t);
    ParkedKeepsAges(s, file, t, cap);
  }

  lemma ReplaceKeepsAll(s: Store, file: string, b: Batch, cap: int)
    requires Valid(s) && Anchored(s) && Aged(s, cap) && Tidy(b, file) && Replaced(s, file, b).Some?
    ensures var t := Replaced(s, file, b).value; Valid(t) && Anchored(t) && Aged(t, cap) && RowsStay(s, t)
  {
    hide Replaced, Tidy, Valid, Anchored, Aged;
    ReplaceKeepsValid(s, file, b);
    ReplaceKeepsHabits(s, file, b, cap);
    ReplaceKeepsKeys(s, file, b);
    assert forall i :: i in s.nodes && i in Replaced(s, file, b).value.nodes ==>
        KeyOf(Replaced(s, file, b).value.nodes[i]).file == KeyOf(s.nodes[i]).file;
  }

  // Foreign keys, unique keys, the anchoring of edges and refs at their
  // source's file, the ages of refs and the truth of drafts outlive any step.
  lemma EveryStepKeeps(w: World, step: Step, v: World, cap: int)
    requires Inv(w, cap) && Next(w, step, v, cap)
    ensures Inv(v, cap)
  {
    hide Replaced, Prepared, Tidy, Parked, WithoutFile, ApplyAll, UpsertAll, WithoutSynthesized,
         EdgesPoint, RefsPoint, RefIdsUnique, KeysUnique, Anchored, Aged;
    var s := w.store;
    match step
    case Park(file) =>
      ParkKeepsHabits(s, file, v.store, cap);
      DraftsStayTrue(w, v, cap);
    case Replace(file, b) =>
      ReplaceKeepsAll(s, file, b, cap);
      DraftsStayTrue(w, v, cap);
    case Clear(file) =>
      ClearKeepsHabits(s, file, cap);
      DraftsStayTrue(w, v, cap);
    case Wipe =>
      WipedIsSound(s, cap);
    case DraftFromRef(r, e) =>
      RefDraftIsTrue(s, r, e);
    case DraftFromNode(i, e) =>
    case ApplyBatch(resolved) =>
      ApplyAllKeepsHabits(s, resolved, cap);
    case ApplyEdge(e) =>
      ApplyEdgeKeepsHabits(s, e, cap);
    case DropRef(id) =>
      DropKeepsHabits(s, id, cap);
    case Mark(id, tail) =>
      MarkFailedValid(s, id, tail, cap);
    case Synthesize(es) =>
      SynthesizeKeepsHabits(s, es, cap);
    case RolledBack =>
  }

  lemma WipedIsSound(s: Store, cap: int)
    requires Valid(s)
    ensures Valid(Wiped(s)) && Anchored(Wiped(s)) && Aged(Wiped(s), cap)
  {
  }

  lemma RefDraftIsTrue(s: Store, r: RefKey, e: Edge)
    requires Valid(s) && Anchored(s) && r in s.refs && e.key.source == r.from && e.row.file == s.refs[r].filePath
    ensures True(s, e)
  {
  }

  lemma ApplyEdgeKeepsHabits(s: Store, e: Edge, cap: int)
    requires Valid(s) && Anchored(s) && Aged(s, cap) && UpsertEdge(s, e).Some? && True(s, e)
    ensures var t := UpsertEdge(s, e).value;
            Valid(t) && Anchored(t) && Aged(t, cap) && t.nodes == s.nodes && t.nextNode == s.nextNode
  {
    UpsertEdgeValid(s, e);
  }

  lemma DropKeepsHabits(s: Store, id: int, cap: int)
    requires Valid(s) && Anchored(s) && Aged(s, cap)
    ensures var t := DeleteRef(s, id); Valid(t) && Anchored(t) && Aged(t, cap)
  {
    DeleteRefValid(s, id);
  }

  // A run from the empty store: ws[i + 1] follows ws[i] by steps[i].
  ghost predicate Run(ws: seq<World>, steps: seq<Step>, cap: int) {
    && |ws| == |steps| + 1
    && ws[0] == World(Store(map[], map[], map[], map[], 1, 1), {})
    && forall i :: 0 <= i < |steps| ==> Next(ws[i], steps[i], ws[i + 1], cap)
  }

  lemma {:induction false} EveryRunKeeps(ws: seq<World>, steps: seq<Step>, cap: int, n: nat)
    requires Run(ws, steps, cap) && n < |ws|
    ensures Inv(ws[n], cap)
  {
    hide Next;
    if n > 0 {
      EveryRunKeeps(ws, steps, cap, n - 1);
      EveryStepKeeps(ws[n - 1], steps[n - 1], ws[n], cap);
    } else {
      assert Inv(ws[0], cap);
    }
  }
}
