/** Replacing one file's rows in a single transaction (query_index.go). */
module FileReplacement {
  import opened Wrappers
  import opened IndexStore

  // The rows one file brings. Ids in `edges` and `refs` may be placeholders:
  // -(i+1) stands for nodes[i], deeper ones for modules.
  datatype Batch = Batch(nodes: seq<Node>, edges: seq<Edge>, refs: seq<Ref>,
                         record: Option<(string, string)>, modules: seq<Node>)

  function RealId(ids: seq<int>, moduleIds: seq<int>, v: int): Option<int> {
    if v >= 0 then
      Some(v)
    else if -(v + 1) < |ids| then
      Some(ids[-(v + 1)])
    else if -(v + 1) - |ids| < |moduleIds| then
      Some(moduleIds[-(v + 1) - |ids|])
    else
      None
  }

  function LandedEdge(ids: seq<int>, moduleIds: seq<int>, e: Edge): Option<Edge> {
    match (RealId(ids, moduleIds, e.key.source), RealId(ids, moduleIds, e.key.target))
    case (Some(source), Some(target)) => Some(e.(key := e.key.(source := source, target := target)))
    case _ => None
  }

  function LandedRef(ids: seq<int>, moduleIds: seq<int>, r: Ref): Option<Ref> {
    match RealId(ids, moduleIds, r.key.from)
    case Some(from) => Some(r.(key := r.key.(from := from)))
    case None => None
  }

  function InsertEdges(s: Store, ids: seq<int>, moduleIds: seq<int>, es: seq<Edge>): Option<Store> {
    if es == [] then
      Some(s)
    else
      match InsertEdges(s, ids, moduleIds, es[..|es| - 1])
      case None => None
      case Some(t) =>
        match LandedEdge(ids, moduleIds, es[|es| - 1])
        case None => None
        case Some(e) => UpsertEdge(t, e)
  }

  function InsertRefs(s: Store, ids: seq<int>, moduleIds: seq<int>, rs: seq<Ref>): Option<Store> {
    if rs == [] then
      Some(s)
    else
      match InsertRefs(s, ids, moduleIds, rs[..|rs| - 1])
      case None => None
      case Some(t) =>
        match LandedRef(ids, moduleIds, rs[|rs| - 1])
        case None => None
        case Some(r) => UpsertRef(t, r)
  }

  function RecordFile(s: Store, record: Option<(string, string)>): Store {
    match record
    case None => s
    case Some((path, data)) => s.(files := s.files[path := data])
  }

  function Cleared(s: Store, file: string): Store {
    DeleteNodesOf(DeleteRefsOf(s, file), file)
  }

  // The store after the deletes and the node inserts, with the ids handed out.
  ghost function Prepared(s: Store, file: string, b: Batch): (Store, seq<int>, seq<int>) {
    var (s1, moduleIds) := UpsertNodes(s, b.modules, true);
    var (s3, ids) := UpsertNodes(Cleared(s1, file), b.nodes, false);
    (s3, ids, moduleIds)
  }

  // The committed store, or None when the transaction rolls back.
  ghost function Replaced(s: Store, file: string, b: Batch): Option<Store> {
    var (s3, ids, moduleIds) := Prepared(s, file, b);
    match InsertEdges(s3, ids, moduleIds, b.edges)
    case None => None
    case Some(s4) =>
      match InsertRefs(s4, ids, moduleIds, b.refs)
      case None => None
      case Some(s5) => Some(RecordFile(s5, b.record))
  }

  // ---- What the node part of the transaction leaves -------------------------

  lemma ClearedValid(s: Store, file: string)
    requires Valid(s)
    ensures Valid(Cleared(s, file)) && (Anchored(s) ==> Anchored(Cleared(s, file)))
  {
    DeleteRefsOfValid(s, file);
    DeleteNodesOfValid(DeleteRefsOf(s, file), file);
  }

  // Rows of other files outlive the deletes and rows of this one do not,
  // module rows upserted before them included.
  lemma ClearedNodes(s: Store, file: string)
    ensures Cleared(s, file).nextNode == s.nextNode && Cleared(s, file).files == s.files
    ensures Cleared(s, file).nextRef == s.nextRef
    ensures forall i :: i in s.nodes && s.nodes[i].file != file ==>
              i in Cleared(s, file).nodes && Cleared(s, file).nodes[i] == s.nodes[i]
    ensures forall i :: i in Cleared(s, file).nodes ==> i in s.nodes && s.nodes[i].file != file
  {
  }

  ghost function EdgesElsewhere(s: Store, file: string): map<EdgeKey, EdgeRow>
    requires EdgesPoint(s)
  {
    map k | k in s.edges && s.nodes[k.source].file != file && s.nodes[k.target].file != file :: s.edges[k]
  }

  ghost function RefsElsewhere(s: Store, file: string): map<RefKey, RefRow>
    requires RefsPoint(s)
  {
    map k | k in s.refs && s.refs[k].filePath != file && s.nodes[k.from].file != file :: s.refs[k]
  }

  lemma ClearedTables(s: Store, t: Store, file: string)
    requires EdgesPoint(s) && RefsPoint(s) && Grows(s, t)
    ensures Cleared(t, file).edges == EdgesElsewhere(s, file)
    ensures Cleared(t, file).refs == RefsElsewhere(s, file)
  {
    assert forall i :: i in s.nodes ==> i in t.nodes && KeyOf(t.nodes[i]).file == s.nodes[i].file;
  }

  lemma PreparedIds(s: Store, file: string, b: Batch)
    requires Valid(s)
    ensures var (t, ids, moduleIds) := Prepared(s, file, b);
            && Valid(t) && (Anchored(s) ==> Anchored(t))
            && |ids| == |b.nodes| && |moduleIds| == |b.modules|
            && (forall i :: 0 <= i < |ids| ==> ids[i] in t.nodes && KeyOf(t.nodes[ids[i]]) == KeyOf(b.nodes[i]))
            && (forall i :: 0 <= i < |moduleIds| ==>
                  && (moduleIds[i] in t.nodes <==> b.modules[i].file != file)
                  && (moduleIds[i] in t.nodes ==> KeyOf(t.nodes[moduleIds[i]]) == KeyOf(b.modules[i])))
  {
    hide UpsertNodes, Cleared;
    UpsertNodesFit(s, b.modules, true);
    var (s1, moduleIds) := UpsertNodes(s, b.modules, true);
    GrowsValid(s, s1);
    ClearedValid(s1, file);
    ClearedNodes(s1, file);
    var s2 := Cleared(s1, file);
    UpsertNodesFit(s2, b.nodes, false);
    var (s3, ids) := UpsertNodes(s2, b.nodes, false);
    GrowsValid(s2, s3);
    assert Prepared(s, file, b) == (s3, ids, moduleIds);
    forall i | 0 <= i < |moduleIds|
      ensures moduleIds[i] in s3.nodes <==> b.modules[i].file != file
      ensures moduleIds[i] in s3.nodes ==> KeyOf(s3.nodes[moduleIds[i]]) == KeyOf(b.modules[i])
    {
      assert moduleIds[i] in s1.nodes && KeyOf(s1.nodes[moduleIds[i]]) == KeyOf(b.modules[i]);
      assert moduleIds[i] < s1.nextNode == s2.nextNode;
      assert moduleIds[i] in s2.nodes <==> b.modules[i].file != file;
    }
  }

  lemma PreparedTables(s: Store, file: string, b: Batch)
    requires Valid(s)
    ensures var (t, ids, moduleIds) := Prepared(s, file, b);
            && t.edges == EdgesElsewhere(s, file) && t.refs == RefsElsewhere(s, file)
            && t.files == s.files && s.nextNode <= t.nextNode && t.nextRef == s.nextRef
  {
    hide UpsertNodes, Cleared;
    UpsertNodesFit(s, b.modules, true);
    var (s1, moduleIds) := UpsertNodes(s, b.modules, true);
    GrowsValid(s, s1);
    ClearedValid(s1, file);
    ClearedNodes(s1, file);
    ClearedTables(s, s1, file);
    UpsertNodesFit(Cleared(s1, file), b.nodes, false);
  }

  // A row of another file outlives the transaction; no earlier row of this
  // file does, and every row of this file afterwards is a row of the batch.
  lemma PreparedNodes(s: Store, file: string, b: Batch)
    requires Valid(s)
    ensures var (t, ids, moduleIds) := Prepared(s, file, b);
            && (forall i :: i in s.nodes && s.nodes[i].file != file ==>
                  i in t.nodes && KeyOf(t.nodes[i]) == KeyOf(s.nodes[i]))
            && (forall i :: i in t.nodes && i < s.nextNode ==> i in s.nodes && s.nodes[i].file != file)
            && (forall i :: i in t.nodes && t.nodes[i].file == file ==> i in ids && i >= s.nextNode)
  {
    hide UpsertNodes, Cleared;
    UpsertNodesFit(s, b.modules, true);
    var (s1, moduleIds) := UpsertNodes(s, b.modules, true);
    GrowsValid(s, s1);
    ClearedValid(s1, file);
    ClearedNodes(s1, file);
    var s2 := Cleared(s1, file);
    UpsertNodesFit(s2, b.nodes, false);
    var (s3, ids) := UpsertNodes(s2, b.nodes, false);
    assert Prepared(s, file, b) == (s3, ids, moduleIds);
    forall i | i in s.nodes && s.nodes[i].file != file
      ensures i in s3.nodes && KeyOf(s3.nodes[i]) == KeyOf(s.nodes[i])
    {
      assert i in s1.nodes && KeyOf(s1.nodes[i]) == KeyOf(s.nodes[i]);
      assert i in s2.nodes && s2.nodes[i] == s1.nodes[i];
    }
    forall i | i in s3.nodes && i < s.nextNode
      ensures i in s.nodes && s.nodes[i].file != file
    {
      assert i in s2.nodes;
      assert i in s1.nodes && s1.nodes[i].file != file;
      assert i in s.nodes && KeyOf(s1.nodes[i]) == KeyOf(s.nodes[i]);
    }
    forall i | i in s3.nodes && s3.nodes[i].file == file
      ensures i in ids && i >= s.nextNode
    {
      assert forall j :: j in s2.nodes ==> KeyOf(s3.nodes[j]) == KeyOf(s2.nodes[j]) && s2.nodes[j].file != file;
    }
  }

  // ---- What the edge and ref inserts leave ----------------------------------

  ghost predicate EdgeLands(s: Store, ids: seq<int>, moduleIds: seq<int>, e: Edge) {
    LandedEdge(ids, moduleIds, e).Some? && EdgeFits(s, LandedEdge(ids, moduleIds, e).value.key)
  }

  ghost predicate RefLands(s: Store, ids: seq<int>, moduleIds: seq<int>, r: Ref) {
    LandedRef(ids, moduleIds, r).Some? && LandedRef(ids, moduleIds, r).value.key.from in s.nodes
  }

  ghost predicate LandsOn(ids: seq<int>, moduleIds: seq<int>, e: Edge, k: EdgeKey) {
    LandedEdge(ids, moduleIds, e).Some? && LandedEdge(ids, moduleIds, e).value.key == k
  }

  ghost predicate LandsLast(ids: seq<int>, moduleIds: seq<int>, es: seq<Edge>, i: int, k: EdgeKey)
    requires 0 <= i < |es|
  {
    LandsOn(ids, moduleIds, es[i], k) && forall j :: i < j < |es| ==> !LandsOn(ids, moduleIds, es[j], k)
  }

  ghost predicate RefLandsOn(ids: seq<int>, moduleIds: seq<int>, r: Ref, k: RefKey) {
    LandedRef(ids, moduleIds, r).Some? && LandedRef(ids, moduleIds, r).value.key == k
  }

  ghost predicate AnyLandsOn(ids: seq<int>, moduleIds: seq<int>, es: seq<Edge>, k: EdgeKey) {
    exists i :: 0 <= i < |es| && LandsOn(ids, moduleIds, es[i], k)
  }

  lemma LandingsOneMore(ids: seq<int>, moduleIds: seq<int>, es: seq<Edge>, k: EdgeKey)
    requires es != []
    ensures AnyLandsOn(ids, moduleIds, es, k)
       <==> AnyLandsOn(ids, moduleIds, es[..|es| - 1], k) || LandsOn(ids, moduleIds, es[|es| - 1], k)
  {
    hide LandsOn;
    var init := es[..|es| - 1];
    if i :| 0 <= i < |es| && LandsOn(ids, moduleIds, es[i], k) {
      assert i < |init| ==> LandsOn(ids, moduleIds, init[i], k);
    }
    if i :| 0 <= i < |init| && LandsOn(ids, moduleIds, init[i], k) {
      assert LandsOn(ids, moduleIds, es[i], k);
    }
  }

  lemma {:induction false} InsertEdgesCommit(s: Store, ids: seq<int>, moduleIds: seq<int>, es: seq<Edge>)
    ensures var t := InsertEdges(s, ids, moduleIds, es);
            && (t.Some? <==> forall i :: 0 <= i < |es| ==> EdgeLands(s, ids, moduleIds, es[i]))
            && (t.Some? ==> t.value == s.(edges := t.value.edges))
  {
    hide LandedEdge;
    if es != [] {
      var init, last := es[..|es| - 1], es[|es| - 1];
      InsertEdgesCommit(s, ids, moduleIds, init);
      assert forall i :: 0 <= i < |init| ==> es[i] == init[i];
      assert (forall i :: 0 <= i < |es| ==> EdgeLands(s, ids, moduleIds, es[i]))
        <==> (forall i :: 0 <= i < |init| ==> EdgeLands(s, ids, moduleIds, init[i]))
             && EdgeLands(s, ids, moduleIds, last);
    }
  }

  lemma {:induction false} InsertEdgesRows(s: Store, ids: seq<int>, moduleIds: seq<int>, es: seq<Edge>, k: EdgeKey)
    requires InsertEdges(s, ids, moduleIds, es).Some?
    ensures var t := InsertEdges(s, ids, moduleIds, es).value;
            && (k in t.edges <==> k in s.edges || AnyLandsOn(ids, moduleIds, es, k))
            && (k in s.edges && !AnyLandsOn(ids, moduleIds, es, k) ==> t.edges[k] == s.edges[k])
            && (forall i :: 0 <= i < |es| && LandsLast(ids, moduleIds, es, i, k) ==>
                  k in t.edges && t.edges[k] == es[i].row)
  {
    hide LandedEdge;
    if es != [] {
      var init, last := es[..|es| - 1], es[|es| - 1];
      InsertEdgesRows(s, ids, moduleIds, init, k);
      LandingsOneMore(ids, moduleIds, es, k);
      LandedKeepsRow(ids, moduleIds, last);
      var t, u := InsertEdges(s, ids, moduleIds, init).value, InsertEdges(s, ids, moduleIds, es).value;
      assert u.edges == t.edges[LandedEdge(ids, moduleIds, last).value.key := last.row];
      forall i | 0 <= i < |es| && LandsLast(ids, moduleIds, es, i, k)
        ensures k in u.edges && u.edges[k] == es[i].row
      {
        if i < |init| {
          assert !LandsOn(ids, moduleIds, es[|es| - 1], k);
          assert LandsLast(ids, moduleIds, init, i, k);
        }
      }
    }
  }

  lemma LandedKeepsRow(ids: seq<int>, moduleIds: seq<int>, e: Edge)
    ensures LandedEdge(ids, moduleIds, e).Some? ==> LandedEdge(ids, moduleIds, e).value.row == e.row
  {
  }

  // All or nothing: the edges go in exactly when each of them lands; then the
  // table holds the old keys and the landed ones, the last writer's row winning.
  lemma InsertEdgesExactly(s: Store, ids: seq<int>, moduleIds: seq<int>, es: seq<Edge>)
    ensures var t := InsertEdges(s, ids, moduleIds, es);
            && (t.Some? <==> forall i :: 0 <= i < |es| ==> EdgeLands(s, ids, moduleIds, es[i]))
            && (t.Some? ==>
                  && t.value == s.(edges := t.value.edges)
                  && (forall k :: k in t.value.edges <==> k in s.edges || AnyLandsOn(ids, moduleIds, es, k))
                  && (forall k :: k in s.edges && !AnyLandsOn(ids, moduleIds, es, k) ==> t.value.edges[k] == s.edges[k])
                  && (forall i, k :: 0 <= i < |es| && LandsLast(ids, moduleIds, es, i, k) ==>
                        k in t.value.edges && t.value.edges[k] == es[i].row))
  {
    hide InsertEdges, EdgeLands, AnyLandsOn, LandsLast;
    InsertEdgesCommit(s, ids, moduleIds, es);
    if InsertEdges(s, ids, moduleIds, es).Some? {
      forall k {
        InsertEdgesRows(s, ids, moduleIds, es, k);
      }
    }
  }

  lemma UpsertRefRows(s: Store, r: Ref)
    ensures UpsertRef(s, r).Some? <==> r.key.from in s.nodes
    ensures UpsertRef(s, r).Some? ==>
              var t := UpsertRef(s, r).value;
              && t == s.(refs := t.refs, nextRef := t.nextRef)
              && (forall k :: k in t.refs <==> k in s.refs || k == r.key)
              && (forall k :: k in s.refs && k != r.key ==> t.refs[k] == s.refs[k])
  {
  }

  lemma {:induction false} InsertRefsExactly(s: Store, ids: seq<int>, moduleIds: seq<int>, rs: seq<Ref>)
    ensures var t := InsertRefs(s, ids, moduleIds, rs);
            && (t.Some? <==> forall i :: 0 <= i < |rs| ==> RefLands(s, ids, moduleIds, rs[i]))
            && (t.Some? ==>
                  && t.value == s.(refs := t.value.refs, nextRef := t.value.nextRef)
                  && (forall k :: k in t.value.refs <==>
                        k in s.refs || exists i :: 0 <= i < |rs| && RefLandsOn(ids, moduleIds, rs[i], k))
                  && (forall k | k in s.refs ::
                        (forall i :: 0 <= i < |rs| ==> !RefLandsOn(ids, moduleIds, rs[i], k)) ==>
                          t.value.refs[k] == s.refs[k]))
  {
    hide UpsertRef;
    if rs != [] {
      var init, last := rs[..|rs| - 1], rs[|rs| - 1];
      InsertRefsExactly(s, ids, moduleIds, init);
      var t := InsertRefs(s, ids, moduleIds, init);
      if t.Some? && RefLands(s, ids, moduleIds, last) {
        var u := UpsertRef(t.value, LandedRef(ids, moduleIds, last).value);
        UpsertRefRows(t.value, LandedRef(ids, moduleIds, last).value);
        assert InsertRefs(s, ids, moduleIds, rs) == u;
        assert forall i :: 0 <= i < |init| ==> rs[i] == init[i];
        forall k | exists i :: 0 <= i < |rs| && RefLandsOn(ids, moduleIds, rs[i], k)
          ensures k in u.value.refs
        {
          var i :| 0 <= i < |rs| && RefLandsOn(ids, moduleIds, rs[i], k);
          if i < |init| {
            assert RefLandsOn(ids, moduleIds, init[i], k);
          }
        }
        forall k | k in u.value.refs
          ensures k in s.refs || exists i :: 0 <= i < |rs| && RefLandsOn(ids, moduleIds, rs[i], k)
        {
          if k in t.value.refs {
            if k !in s.refs {
              var i :| 0 <= i < |init| && RefLandsOn(ids, moduleIds, init[i], k);
              assert RefLandsOn(ids, moduleIds, rs[i], k);
            }
          } else {
            assert RefLandsOn(ids, moduleIds, rs[|rs| - 1], k);
          }
        }
        forall k | k in s.refs && (forall i :: 0 <= i < |rs| ==> !RefLandsOn(ids, moduleIds, rs[i], k))
          ensures u.value.refs[k] == s.refs[k]
        {
          assert !RefLandsOn(ids, moduleIds, rs[|rs| - 1], k);
          assert forall i :: 0 <= i < |init| ==> !RefLandsOn(ids, moduleIds, init[i], k);
        }
      } else if t.Some? {
        if LandedRef(ids, moduleIds, last).Some? {
          UpsertRefRows(t.value, LandedRef(ids, moduleIds, last).value);
        }
        assert !RefLands(s, ids, moduleIds, rs[|rs| - 1]);
      } else {
        var i :| 0 <= i < |init| && !RefLands(s, ids, moduleIds, init[i]);
        assert !RefLands(s, ids, moduleIds, rs[i]);
      }
    }
  }

  // ---- Placeholders ---------------------------------------------------------

  // An id of the batch names a row that is there when the edges go in: a row
  // of another file, one of the batch's nodes, or a module of another file.
  ghost predicate Reaches(s: Store, file: string, b: Batch, v: int) {
    if v >= 0 then
      v in s.nodes && s.nodes[v].file != file
    else
      var i := -(v + 1);
      i < |b.nodes| || (i - |b.nodes| < |b.modules| && b.modules[i - |b.nodes|].file != file)
  }

  ghost function Meant(s: Store, file: string, b: Batch, v: int): NodeKey
    requires Reaches(s, file, b, v)
  {
    if v >= 0 then KeyOf(s.nodes[v])
    else if -(v + 1) < |b.nodes| then KeyOf(b.nodes[-(v + 1)])
    else KeyOf(b.modules[-(v + 1) - |b.nodes|])
  }

  // A verbatim id was read from the table, so it is one handed out before.
  ghost predicate ReadEarlier(s: Store, b: Batch) {
    && (forall e :: e in b.edges ==> e.key.source < s.nextNode && e.key.target < s.nextNode)
    && (forall r :: r in b.refs ==> r.key.from < s.nextNode)
  }

  lemma PlaceholderLands(s: Store, file: string, b: Batch, v: int)
    requires Valid(s) && v < s.nextNode
    ensures var (t, ids, moduleIds) := Prepared(s, file, b);
            && (RealId(ids, moduleIds, v).Some? && RealId(ids, moduleIds, v).value in t.nodes <==>
                  Reaches(s, file, b, v))
            && (Reaches(s, file, b, v) ==> KeyOf(t.nodes[RealId(ids, moduleIds, v).value]) == Meant(s, file, b, v))
  {
    hide Prepared;
    PreparedIds(s, file, b);
    PreparedNodes(s, file, b);
  }

  // The replacement commits exactly when every id of the batch names a row
  // that outlives the deletes; otherwise it rolls back.
  lemma ReplaceCommitsExactly(s: Store, file: string, b: Batch)
    requires Valid(s) && ReadEarlier(s, b)
    ensures Replaced(s, file, b).Some? <==>
              && (forall e :: e in b.edges ==> Reaches(s, file, b, e.key.source) && Reaches(s, file, b, e.key.target))
              && (forall r :: r in b.refs ==> Reaches(s, file, b, r.key.from))
  {
    hide Prepared, InsertEdges, InsertRefs, Reaches;
    var (t, ids, moduleIds) := Prepared(s, file, b);
    InsertEdgesExactly(t, ids, moduleIds, b.edges);
    forall e | e in b.edges
      ensures EdgeLands(t, ids, moduleIds, e) <==>
                Reaches(s, file, b, e.key.source) && Reaches(s, file, b, e.key.target)
    {
      PlaceholderLands(s, file, b, e.key.source);
      PlaceholderLands(s, file, b, e.key.target);
    }
    var u := InsertEdges(t, ids, moduleIds, b.edges);
    if u.Some? {
      InsertRefsExactly(u.value, ids, moduleIds, b.refs);
      forall r | r in b.refs
        ensures RefLands(u.value, ids, moduleIds, r) <==> Reaches(s, file, b, r.key.from)
      {
        PlaceholderLands(s, file, b, r.key.from);
      }
    }
  }

  // The edge under key k is one the batch asked for: between the rows that its
  // ids meant, with its kind, place and row.
  ghost predicate Wanted(s: Store, file: string, b: Batch, t: Store, e: Edge, k: EdgeKey) {
    && Reaches(s, file, b, e.key.source) && Reaches(s, file, b, e.key.target)
    && k in t.edges && Joins(t, k, e, Meant(s, file, b, e.key.source), Meant(s, file, b, e.key.target))
  }

  lemma {:induction false} LastLander(ids: seq<int>, moduleIds: seq<int>, es: seq<Edge>, i: nat, k: EdgeKey)
    returns (j: nat)
    requires i < |es| && LandsOn(ids, moduleIds, es[i], k)
    ensures j < |es| && LandsLast(ids, moduleIds, es, j, k)
    decreases |es| - i
  {
    if later :| i < later < |es| && LandsOn(ids, moduleIds, es[later], k) {
      j := LastLander(ids, moduleIds, es, later, k);
    } else {
      j := i;
    }
  }

  lemma LandedIsWanted(s: Store, file: string, b: Batch, t: Store, e: Edge)
    requires Valid(s) && ReadEarlier(s, b) && Replaced(s, file, b).Some? && e in b.edges
    requires t.nodes == Prepared(s, file, b).0.nodes
    ensures var (p, ids, moduleIds) := Prepared(s, file, b);
            && LandedEdge(ids, moduleIds, e).Some?
            && Reaches(s, file, b, e.key.source) && Reaches(s, file, b, e.key.target)
            && Joins(t, LandedEdge(ids, moduleIds, e).value.key, e,
                     Meant(s, file, b, e.key.source), Meant(s, file, b, e.key.target))
  {
    hide Prepared, Replaced, Reaches, Meant;
    ReplaceCommitsExactly(s, file, b);
    PlaceholderLands(s, file, b, e.key.source);
    PlaceholderLands(s, file, b, e.key.target);
  }

  // After a commit every edge of the batch joins the two rows its ids meant,
  // and every edge there is either one of the batch, with its row, or an
  // earlier one between rows of other files, as it was.
  lemma ReplaceJoinsWhatWasMeant(s: Store, file: string, b: Batch)
    requires Valid(s) && ReadEarlier(s, b) && Replaced(s, file, b).Some?
    ensures var t := Replaced(s, file, b).value;
            && (forall e :: e in b.edges ==> exists k :: Wanted(s, file, b, t, e, k))
            && (forall k :: k in t.edges ==>
                  || (k in EdgesElsewhere(s, file) && t.edges[k] == s.edges[k])
                  || exists e :: e in b.edges && Wanted(s, file, b, t, e, k) && t.edges[k] == e.row)
            && (forall k :: k in EdgesElsewhere(s, file) ==> k in t.edges)
  {
    hide Prepared, InsertEdges, InsertRefs, Reaches, Meant, Joins;
    PreparedTables(s, file, b);
    var (p, ids, moduleIds) := Prepared(s, file, b);
    InsertEdgesExactly(p, ids, moduleIds, b.edges);
    var u := InsertEdges(p, ids, moduleIds, b.edges).value;
    InsertRefsExactly(u, ids, moduleIds, b.refs);
    var t := Replaced(s, file, b).value;
    assert t.nodes == p.nodes && t.edges == u.edges;
    forall e | e in b.edges
      ensures exists k :: Wanted(s, file, b, t, e, k)
    {
      LandedIsWanted(s, file, b, t, e);
      var i :| 0 <= i < |b.edges| && b.edges[i] == e;
      var k := LandedEdge(ids, moduleIds, e).value.key;
      assert LandsOn(ids, moduleIds, b.edges[i], k);
      assert Wanted(s, file, b, t, e, k);
    }
    forall k | k in t.edges
      ensures || (k in EdgesElsewhere(s, file) && t.edges[k] == s.edges[k])
              || exists e :: e in b.edges && Wanted(s, file, b, t, e, k) && t.edges[k] == e.row
    {
      if i :| 0 <= i < |b.edges| && LandsOn(ids, moduleIds, b.edges[i], k) {
        var j := LastLander(ids, moduleIds, b.edges, i, k);
        LandedIsWanted(s, file, b, t, b.edges[j]);
        assert b.edges[j] in b.edges && Wanted(s, file, b, t, b.edges[j], k);
      }
    }
  }

  lemma ReplacedTables(s: Store, file: string, b: Batch)
    requires Replaced(s, file, b).Some?
    ensures var t := Replaced(s, file, b).value;
            var (p, ids, moduleIds) := Prepared(s, file, b);
            && t.nodes == p.nodes
            && (forall k :: k in t.refs <==>
                  k in p.refs || exists i :: 0 <= i < |b.refs| && RefLandsOn(ids, moduleIds, b.refs[i], k))
            && (forall i :: 0 <= i < |b.refs| ==> LandedRef(ids, moduleIds, b.refs[i]).Some?)
  {
    hide Prepared, InsertEdges, InsertRefs;
    var (p, ids, moduleIds) := Prepared(s, file, b);
    InsertEdgesExactly(p, ids, moduleIds, b.edges);
    InsertRefsExactly(InsertEdges(p, ids, moduleIds, b.edges).value, ids, moduleIds, b.refs);
  }

  // The row under id r after a replacement: of the file, the last node of the
  // batch with its key, whole; of another file, the row that was there, or a
  // module of the batch, in the language of the last module with its key.
  ghost predicate RowAfter(s: Store, file: string, b: Batch, t: Store, r: int)
    requires r in t.nodes
  {
    var key := KeyOf(t.nodes[r]);
    if key.file == file then
      HasNode(b.nodes, key) && forall i :: LastNode(b.nodes, i, key) ==> t.nodes[r] == b.nodes[i]
    else
      && (r !in s.nodes ==> HasNode(b.modules, key))
      && (!HasNode(b.modules, key) ==> r in s.nodes && t.nodes[r] == s.nodes[r])
      && forall i :: LastNode(b.modules, i, key) ==>
           && (r in s.nodes ==> t.nodes[r] == s.nodes[r].(language := b.modules[i].language))
           && (r !in s.nodes ==> forall j :: FirstNode(b.modules, j, key) ==>
                t.nodes[r] == b.modules[j].(language := b.modules[i].language))
  }

  lemma PreparedRows(s: Store, file: string, b: Batch, r: int)
    requires Valid(s) && (forall n :: n in b.nodes ==> n.file == file) && r in Prepared(s, file, b).0.nodes
    ensures RowAfter(s, file, b, Prepared(s, file, b).0, r)
  {
    hide UpsertNodes, Cleared, LastNode, FirstNode;
    UpsertNodesFit(s, b.modules, true);
    UpsertNodesRows(s, b.modules, true);
    var s1 := UpsertNodes(s, b.modules, true).0;
    GrowsValid(s, s1);
    ClearedValid(s1, file);
    ClearedNodes(s1, file);
    var s2 := Cleared(s1, file);
    UpsertNodesFit(s2, b.nodes, false);
    UpsertNodesRows(s2, b.nodes, false);
    var s3 := UpsertNodes(s2, b.nodes, false).0;
    assert Prepared(s, file, b).0 == s3;
    var key := KeyOf(s3.nodes[r]);
    assert RowIs(s2, b.nodes, false, s3, r);
    assert r in s2.nodes ==> KeyOf(s2.nodes[r]) == key;
    assert forall i :: 0 <= i < |b.nodes| ==> b.nodes[i] in b.nodes && KeyOf(b.nodes[i]).file == file;
    if key.file != file {
      assert !HasNode(b.nodes, key);
      assert RowIs(s, b.modules, true, s1, r);
    }
  }

  // A commit leaves, of the file's own rows, exactly those of the batch, whole,
  // and every row of other files, a module's language perhaps refreshed. The
  // file's record is the one of the batch.
  lemma ReplaceLeavesTheRows(s: Store, file: string, b: Batch)
    requires Valid(s) && Replaced(s, file, b).Some? && forall n :: n in b.nodes ==> n.file == file
    ensures var t, ids := Replaced(s, file, b).value, Prepared(s, file, b).1;
            && |ids| == |b.nodes|
            && (forall i :: 0 <= i < |ids| ==> ids[i] in t.nodes && KeyOf(t.nodes[ids[i]]) == KeyOf(b.nodes[i]))
            && (forall i :: i in t.nodes ==> (t.nodes[i].file == file <==> i in ids))
            && (forall i :: i in s.nodes && s.nodes[i].file != file ==>
                  i in t.nodes && KeyOf(t.nodes[i]) == KeyOf(s.nodes[i]))
            && (forall i :: i in t.nodes ==> RowAfter(s, file, b, t, i))
            && t.files == match b.record { case None => s.files case Some((path, data)) => s.files[path := data] }
  {
    hide Prepared, Replaced, Valid, RowAfter;
    ReplacedFiles(s, file, b);
    PreparedIds(s, file, b);
    PreparedNodes(s, file, b);
    ReplacedTables(s, file, b);
    var (p, ids, moduleIds) := Prepared(s, file, b);
    forall i | i in ids
      ensures i in p.nodes && p.nodes[i].file == file
    {
      var j :| 0 <= j < |ids| && ids[j] == i;
      assert b.nodes[j] in b.nodes && KeyOf(p.nodes[i]).file == file;
    }
    forall i | i in p.nodes
      ensures RowAfter(s, file, b, Replaced(s, file, b).value, i)
    {
      PreparedRows(s, file, b, i);
      SameRow(s, file, b, p, Replaced(s, file, b).value, i);
    }
  }

  lemma SameRow(s: Store, file: string, b: Batch, p: Store, t: Store, r: int)
    requires r in p.nodes && t.nodes == p.nodes && RowAfter(s, file, b, p, r)
    ensures RowAfter(s, file, b, t, r)
  {
  }

  lemma ReplacedFiles(s: Store, file: string, b: Batch)
    requires Valid(s) && Replaced(s, file, b).Some?
    ensures Replaced(s, file, b).value.files ==
              match b.record { case None => s.files case Some((path, data)) => s.files[path := data] }
  {
    hide Prepared, InsertEdges, InsertRefs;
    PreparedTables(s, file, b);
    var (p, ids, moduleIds) := Prepared(s, file, b);
    InsertEdgesExactly(p, ids, moduleIds, b.edges);
    InsertRefsExactly(InsertEdges(p, ids, moduleIds, b.edges).value, ids, moduleIds, b.refs);
  }

  ghost predicate RefLandsLast(ids: seq<int>, moduleIds: seq<int>, rs: seq<Ref>, i: int, k: RefKey) {
    && 0 <= i < |rs| && RefLandsOn(ids, moduleIds, rs[i], k)
    && forall j :: i < j < |rs| ==> !RefLandsOn(ids, moduleIds, rs[j], k)
  }

  // The row of a ref that was written: what was filed, pending unless said
  // otherwise; a row that was there keeps its id and its attempts, a new one
  // takes a new id and has none.
  predicate RowOfRef(s: Store, k: RefKey, r: Ref, row: RefRow) {
    && row.filePath == r.filePath && row.language == r.language && row.nameTail == r.nameTail
    && row.candidates == r.candidates && row.status == (if r.status == "" then "pending" else r.status)
    && if k in s.refs then row.id == s.refs[k].id && row.attempts == s.refs[k].attempts
       else row.id >= s.nextRef && row.attempts == 0
  }

  // The row under k once the refs are in, starting from the refs of s.
  ghost predicate RefsWritten(s: Store, ids: seq<int>, moduleIds: seq<int>, rs: seq<Ref>, t: Store, k: RefKey) {
    && s.nextRef <= t.nextRef
    && (k in t.refs <==> k in s.refs || exists i :: 0 <= i < |rs| && RefLandsOn(ids, moduleIds, rs[i], k))
    && (forall i :: RefLandsLast(ids, moduleIds, rs, i, k) ==> k in t.refs && RowOfRef(s, k, rs[i], t.refs[k]))
    && (k in t.refs && k !in s.refs ==> t.refs[k].id >= s.nextRef && t.refs[k].attempts == 0)
    && (k in s.refs ==> t.refs[k].id == s.refs[k].id && t.refs[k].attempts == s.refs[k].attempts)
  }

  lemma {:induction false} InsertRefsRows(s: Store, ids: seq<int>, moduleIds: seq<int>, rs: seq<Ref>, k: RefKey)
    requires InsertRefs(s, ids, moduleIds, rs).Some?
    ensures RefsWritten(s, ids, moduleIds, rs, InsertRefs(s, ids, moduleIds, rs).value, k)
  {
    hide RefLandsOn, UpsertRef, RowOfRef;
    if rs != [] {
      hide RefsWritten;
      var n := |rs| - 1;
      InsertRefsRows(s, ids, moduleIds, rs[..n], k);
      var t := InsertRefs(s, ids, moduleIds, rs[..n]).value;
      var r := LandedRef(ids, moduleIds, rs[n]).value;
      OneRefRow(t, r, k);
      LandsWhere(ids, moduleIds, rs[n], k);
      OneMoreRow(s, t, UpsertRef(t, r).value, ids, moduleIds, rs, r, k);
    }
  }

  lemma OneMoreRow(s: Store, t: Store, u: Store, ids: seq<int>, moduleIds: seq<int>, rs: seq<Ref>, r: Ref, k: RefKey)
    requires rs != [] && RefsWritten(s, ids, moduleIds, rs[..|rs| - 1], t, k)
    requires r == rs[|rs| - 1].(key := r.key) && (RefLandsOn(ids, moduleIds, rs[|rs| - 1], k) <==> r.key == k)
    requires t.nextRef <= u.nextRef && (k in u.refs <==> k in t.refs || k == r.key)
    requires k != r.key && k in t.refs ==> u.refs[k] == t.refs[k]
    requires k == r.key ==> RowOfRef(t, k, r, u.refs[k])
    ensures RefsWritten(s, ids, moduleIds, rs, u, k)
  {
    hide RefLandsOn;
    var n := |rs| - 1;
    LandsInPrefix(ids, moduleIds, rs, k);
    forall i | RefLandsLast(ids, moduleIds, rs, i, k)
      ensures k in u.refs && RowOfRef(s, k, rs[i], u.refs[k])
    {
      if i < n {
        LandsLastInPrefix(ids, moduleIds, rs, i, k);
      }
    }
  }

  lemma LandsInPrefix(ids: seq<int>, moduleIds: seq<int>, rs: seq<Ref>, k: RefKey)
    requires rs != []
    ensures var n := |rs| - 1;
            (exists i :: 0 <= i < |rs| && RefLandsOn(ids, moduleIds, rs[i], k)) <==>
            || RefLandsOn(ids, moduleIds, rs[n], k)
            || exists i :: 0 <= i < n && RefLandsOn(ids, moduleIds, rs[..n][i], k)
  {
    hide RefLandsOn;
    var n := |rs| - 1;
    if i :| 0 <= i < |rs| && RefLandsOn(ids, moduleIds, rs[i], k) {
      assert i < n ==> RefLandsOn(ids, moduleIds, rs[..n][i], k);
    }
    if i :| 0 <= i < n && RefLandsOn(ids, moduleIds, rs[..n][i], k) {
      assert RefLandsOn(ids, moduleIds, rs[i], k);
    }
  }

  lemma LandsLastInPrefix(ids: seq<int>, moduleIds: seq<int>, rs: seq<Ref>, i: int, k: RefKey)
    requires RefLandsLast(ids, moduleIds, rs, i, k) && i < |rs| - 1
    ensures RefLandsLast(ids, moduleIds, rs[..|rs| - 1], i, k) && !RefLandsOn(ids, moduleIds, rs[|rs| - 1], k)
  {
    hide RefLandsOn;
  }

  lemma LandsWhere(ids: seq<int>, moduleIds: seq<int>, r: Ref, k: RefKey)
    ensures RefLandsOn(ids, moduleIds, r, k) <==>
              LandedRef(ids, moduleIds, r).Some? && LandedRef(ids, moduleIds, r).value.key == k
  {
  }

  lemma OneRefRow(t: Store, r: Ref, k: RefKey)
    requires UpsertRef(t, r).Some?
    ensures var u := UpsertRef(t, r).value;
            && t.nextRef <= u.nextRef
            && (k in u.refs <==> k in t.refs || k == r.key)
            && (k != r.key && k in t.refs ==> u.refs[k] == t.refs[k])
            && (k == r.key ==> RowOfRef(t, k, r, u.refs[k]))
  {
  }

  // The refs afterwards are the batch's, each with what was filed for it, and
  // those that other files filed for rows of other files, as they were unless
  // the batch files one under the same key.
  lemma ReplaceLeavesTheRefs(s: Store, file: string, b: Batch)
    requires Valid(s) && Replaced(s, file, b).Some?
    ensures var t := Replaced(s, file, b).value;
            && (forall r :: r in t.refs <==>
                  r in RefsElsewhere(s, file) || exists q :: q in b.refs && RefFor(s, file, b, q, r))
            && (forall q :: q in b.refs ==> exists r :: r in t.refs && RefFor(s, file, b, q, r))
            && (forall r :: r in t.refs && (forall q :: q in b.refs ==> !RefFor(s, file, b, q, r)) ==>
                  t.refs[r] == s.refs[r])
            && (forall i, r :: LastRefFor(s, file, b, i, r) ==>
                  r in t.refs && RowOfRef(s.(refs := RefsElsewhere(s, file)), r, b.refs[i], t.refs[r]))
  {
    ReplacedRefRows(s, file, b);
    hide Prepared, Replaced, NodesValid, EdgesPoint, RefIdsUnique, LastRefFor, RowOfRef;
    PreparedTables(s, file, b);
    ReplacedTables(s, file, b);
    var t := Replaced(s, file, b).value;
    var (p, ids, moduleIds) := Prepared(s, file, b);
    forall q | q in b.refs
      ensures exists r :: r in t.refs && RefFor(s, file, b, q, r)
      ensures forall r :: RefFor(s, file, b, q, r) ==> r in t.refs
    {
      var j :| 0 <= j < |b.refs| && b.refs[j] == q;
      assert RefLandsOn(ids, moduleIds, b.refs[j], LandedRef(ids, moduleIds, q).value.key);
    }
    forall r | r in t.refs && r !in RefsElsewhere(s, file)
      ensures exists q :: q in b.refs && RefFor(s, file, b, q, r)
    {
      var j :| 0 <= j < |b.refs| && RefLandsOn(ids, moduleIds, b.refs[j], r);
      assert b.refs[j] in b.refs && RefFor(s, file, b, b.refs[j], r);
    }
  }

  // b.refs[i] is the last of the batch's refs to get key r.
  ghost predicate LastRefFor(s: Store, file: string, b: Batch, i: int, r: RefKey) {
    && 0 <= i < |b.refs| && RefFor(s, file, b, b.refs[i], r)
    && forall j :: i < j < |b.refs| ==> !RefFor(s, file, b, b.refs[j], r)
  }

  lemma ReplacedRefRows(s: Store, file: string, b: Batch)
    requires Valid(s) && Replaced(s, file, b).Some?
    ensures var t := Replaced(s, file, b).value;
            && (forall r :: r in t.refs && (forall q :: q in b.refs ==> !RefFor(s, file, b, q, r)) ==>
                  r in s.refs && t.refs[r] == s.refs[r])
            && (forall i, r :: LastRefFor(s, file, b, i, r) ==>
                  r in t.refs && RowOfRef(s.(refs := RefsElsewhere(s, file)), r, b.refs[i], t.refs[r]))
  {
    hide Prepared, InsertEdges, InsertRefs, NodesValid, EdgesPoint, RefIdsUnique, RefLandsOn, RowOfRef;
    PreparedTables(s, file, b);
    var (p, ids, moduleIds) := Prepared(s, file, b);
    InsertEdgesExactly(p, ids, moduleIds, b.edges);
    var u := InsertEdges(p, ids, moduleIds, b.edges).value;
    InsertRefsExactly(u, ids, moduleIds, b.refs);
    var t := Replaced(s, file, b).value;
    forall i, r | LastRefFor(s, file, b, i, r)
      ensures r in t.refs && RowOfRef(s.(refs := RefsElsewhere(s, file)), r, b.refs[i], t.refs[r])
    {
      InsertRefsRows(u, ids, moduleIds, b.refs, r);
      assert RefLandsLast(ids, moduleIds, b.refs, i, r);
      SameRefs(u, s.(refs := RefsElsewhere(s, file)), r, b.refs[i], t.refs[r]);
    }
    forall r | r in t.refs && (forall q :: q in b.refs ==> !RefFor(s, file, b, q, r))
      ensures r in s.refs && t.refs[r] == s.refs[r]
    {
      assert forall i :: 0 <= i < |b.refs| ==> b.refs[i] in b.refs;
      assert r in u.refs && t.refs[r] == u.refs[r];
    }
  }

  lemma SameRefs(u: Store, v: Store, k: RefKey, r: Ref, row: RefRow)
    requires u.refs == v.refs && u.nextRef == v.nextRef && RowOfRef(u, k, r, row)
    ensures RowOfRef(v, k, r, row)
  {
  }

  // r is the key ref q gets once its starting point has its real id.
  ghost predicate RefFor(s: Store, file: string, b: Batch, q: Ref, r: RefKey) {
    RefLandsOn(Prepared(s, file, b).1, Prepared(s, file, b).2, q, r)
  }

  ghost predicate Joins(t: Store, k: EdgeKey, e: Edge, source: NodeKey, target: NodeKey) {
    && k.source in t.nodes && KeyOf(t.nodes[k.source]) == source
    && k.target in t.nodes && KeyOf(t.nodes[k.target]) == target
    && k.kind == e.key.kind && k.line == e.key.line && k.col == e.key.col
  }

  // ---- What the whole replacement keeps -------------------------------------

  // What the indexer puts in a batch for a file: its own rows, starting points
  // among them, its own path on every edge and ref, refs waiting for a pass.
  ghost predicate Tidy(b: Batch, file: string) {
    && (forall n :: n in b.nodes ==> n.file == file)
    && (forall e :: e in b.edges ==> -|b.nodes| <= e.key.source < 0 && e.row.file == file)
    && (forall r :: r in b.refs ==> -|b.nodes| <= r.key.from < 0 && r.filePath == file && StatusOf(r) == PENDING)
  }

  ghost predicate OwnEdge(s: Store, ids: seq<int>, moduleIds: seq<int>, e: Edge) {
    EdgeLands(s, ids, moduleIds, e) ==> e.row.file == s.nodes[LandedEdge(ids, moduleIds, e).value.key.source].file
  }

  ghost predicate OwnRef(s: Store, ids: seq<int>, moduleIds: seq<int>, r: Ref) {
    RefLands(s, ids, moduleIds, r) ==> r.filePath == s.nodes[LandedRef(ids, moduleIds, r).value.key.from].file
  }

  lemma {:induction false} InsertEdgesKeep(s: Store, ids: seq<int>, moduleIds: seq<int>, es: seq<Edge>)
    requires Valid(s) && InsertEdges(s, ids, moduleIds, es).Some?
    ensures var t := InsertEdges(s, ids, moduleIds, es).value;
            && Valid(t) && t.nodes == s.nodes && t.refs == s.refs
            && (Anchored(s) && (forall e :: e in es ==> OwnEdge(s, ids, moduleIds, e)) ==> Anchored(t))
  {
    if es != [] {
      InsertEdgesKeep(s, ids, moduleIds, es[..|es| - 1]);
      var t := InsertEdges(s, ids, moduleIds, es[..|es| - 1]).value;
      UpsertEdgeValid(t, LandedEdge(ids, moduleIds, es[|es| - 1]).value);
      assert forall e :: e in es[..|es| - 1] ==> e in es;
      assert es[|es| - 1] in es;
    }
  }

  lemma UpsertRefAges(s: Store, r: Ref, cap: int)
    requires UpsertRef(s, r).Some? && Aged(s, cap) && StatusOf(r) == PENDING
    ensures Aged(UpsertRef(s, r).value, cap)
  {
    var t := UpsertRef(s, r).value;
    assert forall k :: k in t.refs && k != r.key ==> k in s.refs && t.refs[k] == s.refs[k];
  }

  lemma UpsertRefKeeps(s: Store, r: Ref, cap: int)
    requires Valid(s) && UpsertRef(s, r).Some?
    ensures var t := UpsertRef(s, r).value;
            && Valid(t) && t.nodes == s.nodes
            && (Anchored(s) && r.filePath == s.nodes[r.key.from].file ==> Anchored(t))
            && (Aged(s, cap) && StatusOf(r) == PENDING ==> Aged(t, cap))
  {
    hide Valid, Anchored, Aged;
    UpsertRefValid(s, r);
    if Aged(s, cap) && StatusOf(r) == PENDING {
      UpsertRefAges(s, r, cap);
    }
  }

  lemma {:induction false} InsertRefsKeep(s: Store, ids: seq<int>, moduleIds: seq<int>, rs: seq<Ref>, cap: int)
    requires Valid(s) && InsertRefs(s, ids, moduleIds, rs).Some?
    ensures var t := InsertRefs(s, ids, moduleIds, rs).value;
            && Valid(t) && t.nodes == s.nodes
            && (Anchored(s) && (forall r :: r in rs ==> OwnRef(s, ids, moduleIds, r)) ==> Anchored(t))
            && (Aged(s, cap) && (forall r :: r in rs ==> StatusOf(r) == PENDING) ==> Aged(t, cap))
  {
    hide Valid, Anchored, Aged;
    if rs != [] {
      InsertRefsKeep(s, ids, moduleIds, rs[..|rs| - 1], cap);
      var t := InsertRefs(s, ids, moduleIds, rs[..|rs| - 1]).value;
      UpsertRefKeeps(t, LandedRef(ids, moduleIds, rs[|rs| - 1]).value, cap);
      assert forall r :: r in rs[..|rs| - 1] ==> r in rs;
      assert rs[|rs| - 1] in rs;
    }
  }

  lemma RecordFileKeeps(s: Store, record: Option<(string, string)>, cap: int)
    ensures var t := RecordFile(s, record);
            && (Valid(s) ==> Valid(t)) && (Anchored(s) ==> Anchored(t)) && (Aged(s, cap) ==> Aged(t, cap))
            && t.nodes == s.nodes && t.edges == s.edges && t.refs == s.refs && t.nextNode == s.nextNode
  {
  }

  lemma ReplaceKeepsValid(s: Store, file: string, b: Batch)
    requires Valid(s) && Replaced(s, file, b).Some?
    ensures Valid(Replaced(s, file, b).value)
  {
    hide Prepared, InsertEdges, InsertRefs, Valid;
    PreparedIds(s, file, b);
    var (p, ids, moduleIds) := Prepared(s, file, b);
    InsertEdgesKeep(p, ids, moduleIds, b.edges);
    var u := InsertEdges(p, ids, moduleIds, b.edges).value;
    InsertRefsKeep(u, ids, moduleIds, b.refs, 0);
    RecordFileKeeps(InsertRefs(u, ids, moduleIds, b.refs).value, b.record, 0);
  }

  lemma {:induction false} InsertRefsForward(s: Store, ids: seq<int>, moduleIds: seq<int>, rs: seq<Ref>)
    requires InsertRefs(s, ids, moduleIds, rs).Some?
    ensures IdsForward(s, InsertRefs(s, ids, moduleIds, rs).value)
  {
    if rs != [] {
      InsertRefsForward(s, ids, moduleIds, rs[..|rs| - 1]);
    }
  }

  lemma ReplaceMovesIdsForward(s: Store, file: string, b: Batch)
    requires Valid(s) && Replaced(s, file, b).Some?
    ensures IdsForward(s, Replaced(s, file, b).value)
  {
    hide Prepared, InsertEdges, InsertRefs;
    PreparedTables(s, file, b);
    var (p, ids, moduleIds) := Prepared(s, file, b);
    InsertEdgesExactly(p, ids, moduleIds, b.edges);
    InsertRefsForward(InsertEdges(p, ids, moduleIds, b.edges).value, ids, moduleIds, b.refs);
  }

  // A row keeps its key while it lives, and new rows take new ids.
  lemma ReplaceKeepsKeys(s: Store, file: string, b: Batch)
    requires Valid(s) && Replaced(s, file, b).Some?
    ensures var t := Replaced(s, file, b).value;
            && s.nextNode <= t.nextNode
            && (forall i :: i in s.nodes && i in t.nodes ==> KeyOf(t.nodes[i]) == KeyOf(s.nodes[i]))
            && (forall i :: i in t.nodes && i !in s.nodes ==> i >= s.nextNode)
  {
    hide Prepared, InsertEdges, InsertRefs, KeyOf, KeysUnique, EdgesPoint, RefsPoint, RefIdsUnique;
    PreparedIds(s, file, b);
    PreparedNodes(s, file, b);
    PreparedTables(s, file, b);
    var (p, ids, moduleIds) := Prepared(s, file, b);
    InsertEdgesExactly(p, ids, moduleIds, b.edges);
    InsertRefsExactly(InsertEdges(p, ids, moduleIds, b.edges).value, ids, moduleIds, b.refs);
    assert Replaced(s, file, b).value.nodes == p.nodes;
  }

  lemma TidyOwns(s: Store, file: string, b: Batch)
    requires Valid(s) && Tidy(b, file)
    ensures var (p, ids, moduleIds) := Prepared(s, file, b);
            && (forall e :: e in b.edges ==> OwnEdge(p, ids, moduleIds, e))
            && (forall r, u: Store :: r in b.refs && u.nodes == p.nodes ==> OwnRef(u, ids, moduleIds, r))
  {
    hide Prepared, Valid;
    PreparedIds(s, file, b);
    var (p, ids, moduleIds) := Prepared(s, file, b);
    forall e | e in b.edges
      ensures OwnEdge(p, ids, moduleIds, e)
    {
      assert b.nodes[-(e.key.source + 1)] in b.nodes;
    }
    forall r, u: Store | r in b.refs && u.nodes == p.nodes
      ensures OwnRef(u, ids, moduleIds, r)
    {
      assert b.nodes[-(r.key.from + 1)] in b.nodes;
    }
  }

  // The two habits of the writers, and the ages of refs, outlive a
  // replacement by a tidy batch.
  lemma ReplaceKeepsHabits(s: Store, file: string, b: Batch, cap: int)
    requires Valid(s) && Replaced(s, file, b).Some? && Tidy(b, file)
    ensures Anchored(s) ==> Anchored(Replaced(s, file, b).value)
    ensures Aged(s, cap) ==> Aged(Replaced(s, file, b).value, cap)
  {
    hide Prepared, InsertEdges, InsertRefs, Valid, Anchored, OwnEdge, OwnRef;
    PreparedIds(s, file, b);
    TidyOwns(s, file, b);
    var (p, ids, moduleIds) := Prepared(s, file, b);
    InsertEdgesKeep(p, ids, moduleIds, b.edges);
    var u := InsertEdges(p, ids, moduleIds, b.edges).value;
    InsertRefsKeep(u, ids, moduleIds, b.refs, cap);
    RecordFileKeeps(InsertRefs(u, ids, moduleIds, b.refs).value, b.record, cap);
    if Aged(s, cap) {
      PreparedAged(s, file, b, cap);
    }
  }

  lemma PreparedAged(s: Store, file: string, b: Batch, cap: int)
    requires Valid(s) && Aged(s, cap)
    ensures Aged(Prepared(s, file, b).0, cap)
  {
    hide Prepared;
    PreparedTables(s, file, b);
  }
}
