/** The index database: tables as maps, SQL statements as functions on them.

    `nodes` is keyed by row id and its UNIQUE(file, line, kind, name) key is an
    invariant; `edges` and `refs` are keyed by their UNIQUE columns. Row ids
    come from AUTOINCREMENT counters, so they are never used twice. */
module IndexStore {
  import opened Wrappers

  const KIND_FILE := "file"
  const KIND_MODULE := "module"
  const PENDING := "pending"
  const FAILED := "failed"
  const ABANDONED := "abandoned"

  // `details` stands for the columns no key and no foreign key looks at.
  datatype Node = Node(kind: string, name: string, file: string, line: int, language: string, details: string)

  datatype NodeKey = NodeKey(file: string, line: int, kind: string, name: string)

  datatype EdgeKey = EdgeKey(source: int, target: int, kind: string, line: int, col: int)

  datatype EdgeRow = EdgeRow(file: string, provenance: string, metadata: string)

  datatype Edge = Edge(key: EdgeKey, row: EdgeRow)

  datatype RefKey = RefKey(from: int, name: string, kind: string, line: int, col: int)

  datatype RefRow = RefRow(id: int, filePath: string, language: string, status: string,
                           nameTail: string, candidates: string, attempts: int)

  datatype Ref = Ref(key: RefKey, filePath: string, language: string, status: string,
                     nameTail: string, candidates: string)

  datatype Store = Store(nodes: map<int, Node>, edges: map<EdgeKey, EdgeRow>, refs: map<RefKey, RefRow>,
                         files: map<string, string>, nextNode: int, nextRef: int)

  function KeyOf(n: Node): NodeKey {
    NodeKey(n.file, n.line, n.kind, n.name)
  }

  // ---- What SQLite's constraints keep -------------------------------------

  ghost predicate KeysUnique(nodes: map<int, Node>) {
    forall i, j :: i in nodes && j in nodes && KeyOf(nodes[i]) == KeyOf(nodes[j]) ==> i == j
  }

  ghost predicate NodesValid(s: Store) {
    && s.nextNode > 0
    && (forall i :: i in s.nodes ==> 0 < i < s.nextNode)
    && KeysUnique(s.nodes)
  }

  ghost predicate EdgesPoint(s: Store) {
    forall k :: k in s.edges ==> k.source in s.nodes && k.target in s.nodes
  }

  ghost predicate RefsPoint(s: Store) {
    forall k :: k in s.refs ==> k.from in s.nodes
  }

  ghost predicate RefIdsUnique(s: Store) {
    && (forall k :: k in s.refs ==> 0 < s.refs[k].id < s.nextRef)
    && (forall j, k :: j in s.refs && k in s.refs && s.refs[j].id == s.refs[k].id ==> j == k)
  }

  ghost predicate Valid(s: Store) {
    && s.nextRef > 0
    && NodesValid(s)
    && EdgesPoint(s)
    && RefsPoint(s)
    && RefIdsUnique(s)
  }

  // Every edge and every ref carries the file of the node it starts at. No
  // column constraint says so: the writers keep it.
  ghost predicate Anchored(s: Store) {
    && (forall k :: k in s.edges && k.source in s.nodes ==> s.edges[k].file == s.nodes[k.source].file)
    && (forall k :: k in s.refs && k.from in s.nodes ==> s.refs[k].filePath == s.nodes[k.from].file)
  }

  // A ref below the cap may be retried; one at the cap is parked for good.
  ghost predicate Aged(s: Store, cap: int) {
    forall k :: k in s.refs ==>
      && s.refs[k].attempts >= 0
      && s.refs[k].status in [PENDING, FAILED, ABANDONED]
      && (s.refs[k].status == FAILED ==> 0 < s.refs[k].attempts < cap)
      && (s.refs[k].status == ABANDONED ==> s.refs[k].attempts >= cap)
  }

  // ---- Statements on nodes --------------------------------------------------

  ghost function Holder(nodes: map<int, Node>, key: NodeKey): Option<int> {
    if exists i :: i in nodes && KeyOf(nodes[i]) == key then
      var i :| i in nodes && KeyOf(nodes[i]) == key;
      Some(i)
    else
      None
  }

  lemma HolderIs(nodes: map<int, Node>, i: int)
    requires KeysUnique(nodes) && i in nodes
    ensures Holder(nodes, KeyOf(nodes[i])) == Some(i)
  {
  }

  // INSERT ... ON CONFLICT(file, line, kind, name) DO UPDATE ... RETURNING id.
  // A module insert refreshes the language alone.
  ghost function UpsertNode(s: Store, n: Node, module_: bool): (Store, int) {
    match Holder(s.nodes, KeyOf(n))
    case Some(i) =>
      var was := s.nodes[i];
      (s.(nodes := s.nodes[i := if module_ then was.(language := n.language) else n]), i)
    case None =>
      (s.(nodes := s.nodes[s.nextNode := n], nextNode := s.nextNode + 1), s.nextNode)
  }

  ghost function UpsertNodes(s: Store, ns: seq<Node>, module_: bool): (Store, seq<int>) {
    if ns == [] then
      (s, [])
    else
      var (t, ids) := UpsertNodes(s, ns[..|ns| - 1], module_);
      var (u, id) := UpsertNode(t, ns[|ns| - 1], module_);
      (u, ids + [id])
  }

  // DELETE FROM nodes WHERE file = ?, with ON DELETE CASCADE on edges and refs.
  function DeleteNodesOf(s: Store, file: string): Store {
    var kept := map i | i in s.nodes && s.nodes[i].file != file :: s.nodes[i];
    s.(nodes := kept,
       edges := map k | k in s.edges && k.source in kept && k.target in kept :: s.edges[k],
       refs := map k | k in s.refs && k.from in kept :: s.refs[k])
  }

  function DeleteRefsOf(s: Store, file: string): Store {
    s.(refs := map k | k in s.refs && s.refs[k].filePath != file :: s.refs[k])
  }

  // ---- Statements on edges and refs -----------------------------------------

  predicate EdgeFits(s: Store, k: EdgeKey) {
    k.source in s.nodes && k.target in s.nodes
  }

  // The upsert of an edge, or None when a foreign key refuses it.
  function UpsertEdge(s: Store, e: Edge): Option<Store> {
    if EdgeFits(s, e.key) then Some(s.(edges := s.edges[e.key := e.row])) else None
  }

  function StatusOf(r: Ref): string {
    if r.status == "" then PENDING else r.status
  }

  // The upsert of a ref: a conflict keeps the row's id and its attempts.
  function UpsertRef(s: Store, r: Ref): Option<Store> {
    if r.key.from !in s.nodes then
      None
    else if r.key in s.refs then
      var was := s.refs[r.key];
      Some(s.(refs := s.refs[r.key := RefRow(was.id, r.filePath, r.language, StatusOf(r),
                                             r.nameTail, r.candidates, was.attempts)]))
    else
      Some(s.(refs := s.refs[r.key := RefRow(s.nextRef, r.filePath, r.language, StatusOf(r),
                                             r.nameTail, r.candidates, 0)],
              nextRef := s.nextRef + 1))
  }

  // DELETE FROM unresolved_refs WHERE id = ?
  function DeleteRef(s: Store, id: int): Store {
    s.(refs := map k | k in s.refs && s.refs[k].id != id :: s.refs[k])
  }

  function Failing(row: RefRow, nameTail: string, cap: int): RefRow {
    row.(attempts := row.attempts + 1,
         status := if row.attempts + 1 >= cap then ABANDONED else FAILED,
         nameTail := nameTail)
  }

  function MarkFailed(s: Store, id: int, nameTail: string, cap: int): Store {
    s.(refs := map k | k in s.refs ::
         if s.refs[k].id == id then Failing(s.refs[k], nameTail, cap) else s.refs[k])
  }

  // ---- What each node statement keeps ---------------------------------------

  // Rows keep their ids and keys; what is new takes fresh ids.
  ghost predicate Grows(s: Store, t: Store) {
    && s.nextNode <= t.nextNode
    && t.edges == s.edges && t.refs == s.refs && t.files == s.files && t.nextRef == s.nextRef
    && (forall i :: i in s.nodes ==> i in t.nodes && KeyOf(t.nodes[i]) == KeyOf(s.nodes[i]))
    && (forall i :: i in t.nodes && i !in s.nodes ==> s.nextNode <= i)
  }

  lemma UpsertNodeFits(s: Store, n: Node, module_: bool)
    requires NodesValid(s)
    ensures var (t, id) := UpsertNode(s, n, module_);
            && NodesValid(t) && Grows(s, t)
            && id in t.nodes && KeyOf(t.nodes[id]) == KeyOf(n)
            && (id in s.nodes || id == s.nextNode)
            && (forall i :: i in t.nodes ==> i in s.nodes || i == id)
  {
  }

  lemma {:induction false} UpsertNodesFit(s: Store, ns: seq<Node>, module_: bool)
    requires NodesValid(s)
    ensures var (t, ids) := UpsertNodes(s, ns, module_);
            && NodesValid(t) && Grows(s, t)
            && |ids| == |ns|
            && (forall i :: 0 <= i < |ns| ==> ids[i] in t.nodes && KeyOf(t.nodes[ids[i]]) == KeyOf(ns[i]))
            && (forall i :: i in t.nodes ==> i in s.nodes || i in ids)
  {
    if ns != [] {
      var init, last := ns[..|ns| - 1], ns[|ns| - 1];
      UpsertNodesFit(s, init, module_);
      var (t, ids) := UpsertNodes(s, init, module_);
      UpsertNodeFits(t, last, module_);
      var (u, id) := UpsertNode(t, last, module_);
      assert UpsertNodes(s, ns, module_) == (u, ids + [id]);
      forall i | 0 <= i < |ns|
        ensures (ids + [id])[i] in u.nodes && KeyOf(u.nodes[(ids + [id])[i]]) == KeyOf(ns[i])
      {
        if i < |init| {
          assert ns[i] == init[i] && (ids + [id])[i] == ids[i];
        }
      }
    }
  }

  // ---- What the rows hold afterwards ------------------------------------------

  predicate HasNode(ns: seq<Node>, key: NodeKey) {
    exists i :: 0 <= i < |ns| && KeyOf(ns[i]) == key
  }

  // ns[i] is the last with its key.
  predicate LastNode(ns: seq<Node>, i: int, key: NodeKey) {
    0 <= i < |ns| && KeyOf(ns[i]) == key && forall j :: i < j < |ns| ==> KeyOf(ns[j]) != key
  }

  predicate FirstNode(ns: seq<Node>, i: int, key: NodeKey) {
    0 <= i < |ns| && KeyOf(ns[i]) == key && forall j :: 0 <= j < i ==> KeyOf(ns[j]) != key
  }

  lemma LastNodeMore(ns: seq<Node>, key: NodeKey)
    requires ns != []
    ensures var n, init := |ns| - 1, ns[..|ns| - 1];
            && (forall i :: LastNode(ns, i, key) <==> if i == n then KeyOf(ns[n]) == key
                                                      else LastNode(init, i, key) && KeyOf(ns[n]) != key)
            && (forall i :: FirstNode(ns, i, key) <==> if i == n then KeyOf(ns[n]) == key && !HasNode(init, key)
                                                       else FirstNode(init, i, key))
            && (HasNode(ns, key) <==> HasNode(init, key) || KeyOf(ns[n]) == key)
            && (forall i :: LastNode(init, i, key) || FirstNode(init, i, key) ==>
                  init[i] == ns[i] && HasNode(init, key))
  {
    hide KeyOf;
    var init := ns[..|ns| - 1];
    assert forall j :: 0 <= j < |init| ==> init[j] == ns[j];
    if i :| 0 <= i < |ns| && KeyOf(ns[i]) == key {
      assert i < |init| ==> KeyOf(init[i]) == key;
    }
    if i :| 0 <= i < |init| && KeyOf(init[i]) == key {
      assert KeyOf(ns[i]) == key;
    }
  }

  // What the upserts leave under row id r: an earlier row nobody wrote; the
  // last node with the row's key, whole; or, for modules, the row that was
  // there or the first node with the key, in the language of the last.
  ghost predicate RowIs(s: Store, ns: seq<Node>, module_: bool, t: Store, r: int)
    requires r in t.nodes
  {
    var key := KeyOf(t.nodes[r]);
    && (!HasNode(ns, key) ==> r in s.nodes && t.nodes[r] == s.nodes[r])
    && (!module_ ==> forall i :: LastNode(ns, i, key) ==> t.nodes[r] == ns[i])
    && (module_ ==> forall i :: LastNode(ns, i, key) ==>
          && (r in s.nodes ==> t.nodes[r] == s.nodes[r].(language := ns[i].language))
          && (r !in s.nodes ==> forall j :: FirstNode(ns, j, key) ==> t.nodes[r] == ns[j].(language := ns[i].language)))
  }

  lemma OneRowIs(s: Store, t: Store, n: Node, module_: bool, u: Store, id: int)
    requires NodesValid(t) && UpsertNode(t, n, module_) == (u, id)
    ensures id in u.nodes && KeyOf(u.nodes[id]) == KeyOf(n)
    ensures forall r :: r in u.nodes && r != id ==>
              r in t.nodes && u.nodes[r] == t.nodes[r] && KeyOf(t.nodes[r]) != KeyOf(n)
    ensures id in t.nodes ==> KeyOf(t.nodes[id]) == KeyOf(n)
    ensures u.nodes[id] == if id in t.nodes && module_ then t.nodes[id].(language := n.language) else n
    ensures id !in t.nodes ==> forall r :: r in t.nodes ==> KeyOf(t.nodes[r]) != KeyOf(n)
  {
    if Holder(t.nodes, KeyOf(n)) == None {
      assert t.nextNode !in t.nodes;
    }
  }

  lemma {:induction false} UpsertNodesRows(s: Store, ns: seq<Node>, module_: bool)
    requires NodesValid(s)
    ensures var t := UpsertNodes(s, ns, module_).0; forall r :: r in t.nodes ==> RowIs(s, ns, module_, t, r)
    ensures var t := UpsertNodes(s, ns, module_).0;
            forall r :: r in t.nodes && r !in s.nodes ==> HasNode(ns, KeyOf(t.nodes[r]))
  {
    hide KeyOf, NodesValid, UpsertNode;
    if ns != [] {
      var init, last := ns[..|ns| - 1], ns[|ns| - 1];
      UpsertNodesRows(s, init, module_);
      UpsertNodesFit(s, init, module_);
      var (t, ids) := UpsertNodes(s, init, module_);
      var (u, id) := UpsertNode(t, last, module_);
      assert UpsertNodes(s, ns, module_).0 == u;
      OneRowIs(s, t, last, module_, u, id);
      forall r | r in u.nodes
        ensures RowIs(s, ns, module_, u, r)
        ensures r !in s.nodes ==> HasNode(ns, KeyOf(u.nodes[r]))
      {
        LastNodeMore(ns, KeyOf(u.nodes[r]));
        if r in t.nodes {
          assert RowIs(s, init, module_, t, r);
        }
        NextRowIs(s, ns, module_, t, u, id, r);
      }
    }
  }

  lemma {:induction false} HasLastNode(ns: seq<Node>, key: NodeKey)
    ensures HasNode(ns, key) ==> exists i :: LastNode(ns, i, key)
  {
    hide KeyOf;
    if ns != [] {
      LastNodeMore(ns, key);
      HasLastNode(ns[..|ns| - 1], key);
      if KeyOf(ns[|ns| - 1]) == key {
        assert LastNode(ns, |ns| - 1, key);
      } else if HasNode(ns, key) {
        var i :| LastNode(ns[..|ns| - 1], i, key);
        assert LastNode(ns, i, key);
      }
    }
  }

  lemma NextRowIs(s: Store, ns: seq<Node>, module_: bool, t: Store, u: Store, id: int, r: int)
    requires ns != [] && r in u.nodes
    requires r in t.nodes ==> RowIs(s, ns[..|ns| - 1], module_, t, r) && KeyOf(t.nodes[r]) == KeyOf(u.nodes[r])
    requires r in t.nodes && r !in s.nodes ==> HasNode(ns[..|ns| - 1], KeyOf(t.nodes[r]))
    requires r !in t.nodes ==> r == id && r !in s.nodes && !HasNode(ns[..|ns| - 1], KeyOf(ns[|ns| - 1]))
    requires r != id ==> u.nodes[r] == t.nodes[r] && KeyOf(u.nodes[r]) != KeyOf(ns[|ns| - 1])
    requires r == id ==> u.nodes[r] == if r in t.nodes && module_ then t.nodes[r].(language := ns[|ns| - 1].language)
                                       else ns[|ns| - 1]
    requires r == id ==> KeyOf(u.nodes[r]) == KeyOf(ns[|ns| - 1])
    ensures RowIs(s, ns, module_, u, r)
  {
    hide KeyOf, HasNode, LastNode, FirstNode;
    LastNodeMore(ns, KeyOf(u.nodes[r]));
    HasLastNode(ns[..|ns| - 1], KeyOf(u.nodes[r]));
  }

  lemma GrowsValid(s: Store, t: Store)
    requires Valid(s) && Grows(s, t) && NodesValid(t)
    ensures Valid(t)
    ensures Anchored(s) ==> Anchored(t)
  {
    if Anchored(s) {
      forall k | k in t.edges && k.source in t.nodes
        ensures t.edges[k].file == t.nodes[k.source].file
      {
        assert k.source in s.nodes;
        assert KeyOf(t.nodes[k.source]) == KeyOf(s.nodes[k.source]);
      }
      forall k | k in t.refs && k.from in t.nodes
        ensures t.refs[k].filePath == t.nodes[k.from].file
      {
        assert k.from in s.nodes;
        assert KeyOf(t.nodes[k.from]) == KeyOf(s.nodes[k.from]);
      }
    }
  }

  // Refs keep their ids, and new refs take ids never used before.
  ghost predicate IdsForward(s: Store, t: Store) {
    && s.nextRef <= t.nextRef
    && forall k :: k in t.refs ==> (k in s.refs && t.refs[k].id == s.refs[k].id) || t.refs[k].id >= s.nextRef
  }

  lemma DeleteNodesOfValid(s: Store, file: string)
    requires Valid(s)
    ensures Valid(DeleteNodesOf(s, file))
    ensures Anchored(s) ==> Anchored(DeleteNodesOf(s, file))
  {
  }

  lemma DeleteRefsOfValid(s: Store, file: string)
    requires Valid(s)
    ensures Valid(DeleteRefsOf(s, file))
    ensures Anchored(s) ==> Anchored(DeleteRefsOf(s, file))
  {
  }

  lemma UpsertEdgeValid(s: Store, e: Edge)
    requires Valid(s) && EdgeFits(s, e.key)
    ensures Valid(UpsertEdge(s, e).value)
    ensures Anchored(s) && e.row.file == s.nodes[e.key.source].file ==> Anchored(UpsertEdge(s, e).value)
  {
  }

  lemma UpsertRefIds(s: Store, r: Ref)
    requires s.nextRef > 0 && RefIdsUnique(s) && UpsertRef(s, r).Some?
    ensures RefIdsUnique(UpsertRef(s, r).value)
  {
  }

  lemma UpsertRefAnchors(s: Store, r: Ref)
    requires Anchored(s) && UpsertRef(s, r).Some? && r.filePath == s.nodes[r.key.from].file
    ensures Anchored(UpsertRef(s, r).value)
  {
  }

  lemma UpsertRefValid(s: Store, r: Ref)
    requires Valid(s) && r.key.from in s.nodes
    ensures Valid(UpsertRef(s, r).value)
    ensures Anchored(s) && r.filePath == s.nodes[r.key.from].file ==> Anchored(UpsertRef(s, r).value)
  {
    hide RefIdsUnique, KeysUnique, Anchored;
    UpsertRefIds(s, r);
    if Anchored(s) && r.filePath == s.nodes[r.key.from].file {
      UpsertRefAnchors(s, r);
    }
  }

  lemma DeleteRefValid(s: Store, id: int)
    requires Valid(s)
    ensures Valid(DeleteRef(s, id))
    ensures Anchored(s) ==> Anchored(DeleteRef(s, id))
  {
  }

  lemma MarkFailedValid(s: Store, id: int, nameTail: string, cap: int)
    requires Valid(s)
    ensures Valid(MarkFailed(s, id, nameTail, cap))
    ensures Anchored(s) ==> Anchored(MarkFailed(s, id, nameTail, cap))
    ensures Aged(s, cap) ==> Aged(MarkFailed(s, id, nameTail, cap), cap)
  {
  }
}
