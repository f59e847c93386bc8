/** The database handle: each write runs in one transaction that commits or
    leaves the tables as they were. */
module Database {
  import opened Wrappers
  import opened IndexStore
  import opened FileReplacement
  import opened Parking
  import opened Names

  // Rejected: a constraint or a bad placeholder refused a row. Broken: SQLite
  // failed for a reason outside the data.
  datatype Outcome = Committed | Rejected | Broken

  const PARK_PAGE := 1000

  // The upserts of a batch of resolved refs, each followed by the delete of
  // the ref's row.
  function ApplyAll(s: Store, batch: seq<(Edge, int)>): Option<Store> {
    if batch == [] then
      Some(s)
    else
      match ApplyAll(s, batch[..|batch| - 1])
      case None => None
      case Some(t) =>
        match UpsertEdge(t, batch[|batch| - 1].0)
        case None => None
        case Some(u) => Some(DeleteRef(u, batch[|batch| - 1].1))
  }

  predicate OccursAt(text: string, i: nat, word: string) {
    i + |word| <= |text| && text[i..i + |word|] == word
  }

  // provenance = 'heuristic' AND metadata LIKE '%synthesizedBy%'
  predicate Synthesized(row: EdgeRow) {
    row.provenance == "heuristic" && exists i :: 0 <= i < |row.metadata| && OccursAt(row.metadata, i, "synthesizedBy")
  }

  lemma {:induction false} ApplyAllExactly(s: Store, batch: seq<(Edge, int)>)
    ensures ApplyAll(s, batch).Some? <==> forall i :: 0 <= i < |batch| ==> EdgeFits(s, batch[i].0.key)
    ensures ApplyAll(s, batch).Some? ==> ApplyAll(s, batch).value.nodes == s.nodes
    ensures Valid(s) && ApplyAll(s, batch).Some? ==> Valid(ApplyAll(s, batch).value)
  {
    hide Valid, DeleteRef;
    if batch != [] {
      var init, last := batch[..|batch| - 1], batch[|batch| - 1];
      ApplyAllExactly(s, init);
      assert forall i :: 0 <= i < |init| ==> batch[i] == init[i];
      if ApplyAll(s, init).Some? && EdgeFits(s, last.0.key) {
        var t := ApplyAll(s, init).value;
        DeleteRefNodes(UpsertEdge(t, last.0).value, last.1);
        if Valid(s) {
          UpsertEdgeValid(t, last.0);
          DeleteRefValid(UpsertEdge(t, last.0).value, last.1);
        }
      }
    }
  }

  lemma DeleteRefNodes(s: Store, id: int)
    ensures DeleteRef(s, id).nodes == s.nodes && DeleteRef(s, id).edges == s.edges
  {
  }

  function UpsertAll(s: Store, es: seq<Edge>): Option<Store> {
    if es == [] then
      Some(s)
    else
      match UpsertAll(s, es[..|es| - 1])
      case None => None
      case Some(t) => UpsertEdge(t, es[|es| - 1])
  }

  lemma {:induction false} UpsertAllKeeps(s: Store, es: seq<Edge>)
    requires Valid(s) && UpsertAll(s, es).Some?
    ensures var t := UpsertAll(s, es).value;
            && Valid(t) && t == s.(edges := t.edges)
            && (Anchored(s) && (forall e :: e in es && EdgeFits(s, e.key) ==> e.row.file == s.nodes[e.key.source].file)
                ==> Anchored(t))
  {
    if es != [] {
      UpsertAllKeeps(s, es[..|es| - 1]);
      var t := UpsertAll(s, es[..|es| - 1]).value;
      UpsertEdgeValid(t, es[|es| - 1]);
      assert forall e :: e in es[..|es| - 1] ==> e in es;
      assert es[|es| - 1] in es;
    }
  }

  // The attempt about to be recorded is the one that reaches the cap.
  predicate Abandons(s: Store, id: int, cap: int) {
    exists k :: k in s.refs && s.refs[k].id == id && s.refs[k].attempts + 1 >= cap
  }

  // An attempt abandons a row exactly when the row is abandoned after it.
  lemma AbandonedIsMarked(s: Store, id: int, nameTail: string, cap: int)
    ensures var t := MarkFailed(s, id, nameTail, cap);
            Abandons(s, id, cap) <==> exists k :: k in t.refs && t.refs[k].id == id && t.refs[k].status == "abandoned"
  {
    var t := MarkFailed(s, id, nameTail, cap);
    assert "abandoned"[0] != "failed"[0];
    forall k | k in s.refs && s.refs[k].id == id
      ensures t.refs[k].id == id && (t.refs[k].status == "abandoned" <==> s.refs[k].attempts + 1 >= cap)
    {
    }
    if Abandons(s, id, cap) {
      var k :| k in s.refs && s.refs[k].id == id && s.refs[k].attempts + 1 >= cap;
      assert k in t.refs && t.refs[k].status == "abandoned";
    }
  }

  // Synthesized are the heuristic edges with this word somewhere in their
  // metadata.
  lemma SynthesizedExactly(row: EdgeRow)
    ensures Synthesized(row) <==>
              row.provenance == "heuristic" && exists a, b :: row.metadata == a + "synthesizedBy" + b
  {
    var text, word := row.metadata, "synthesizedBy";
    if i :| 0 <= i < |text| && OccursAt(text, i, word) {
      assert text == text[..i] + word + text[i + |word|..];
    }
    if a, b :| text == a + word + b {
      assert text[|a|..|a| + |word|] == word;
      assert OccursAt(text, |a|, word);
    }
  }

  function WithoutFile(s: Store, path: string): Store {
    Cleared(s, path).(files := s.files - {path})
  }

  function Wiped(s: Store): Store {
    s.(nodes := map[], edges := map[], refs := map[], files := map[])
  }

  lemma WithoutSynthesizedValid(s: Store)
    requires Valid(s)
    ensures Valid(WithoutSynthesized(s)) && (Anchored(s) ==> Anchored(WithoutSynthesized(s)))
  {
  }

  function WithoutSynthesized(s: Store): Store {
    s.(edges := map k | k in s.edges && !Synthesized(s.edges[k]) :: s.edges[k])
  }

  method InsertNodeRow(s: Store, n: Node, module_: bool) returns (t: Store, id: int)
    requires NodesValid(s)
    ensures (t, id) == UpsertNode(s, n, module_)
  {
    if exists i :: i in s.nodes && KeyOf(s.nodes[i]) == KeyOf(n) {
      id :| id in s.nodes && KeyOf(s.nodes[id]) == KeyOf(n);
      HolderIs(s.nodes, id);
      t := s.(nodes := s.nodes[id := if module_ then s.nodes[id].(language := n.language) else n]);
    } else {
      id := s.nextNode;
      t := s.(nodes := s.nodes[id := n], nextNode := id + 1);
    }
  }

  method InsertNodeRows(s: Store, ns: seq<Node>, module_: bool) returns (t: Store, ids: seq<int>)
    requires NodesValid(s)
    ensures (t, ids) == UpsertNodes(s, ns, module_)
  {
    hide UpsertNode;
    t, ids := s, [];
    for i := 0 to |ns|
      invariant (t, ids) == UpsertNodes(s, ns[..i], module_)
    {
      UpsertNodesFit(s, ns[..i], module_);
      assert ns[..i + 1][..i] == ns[..i];
      var id;
      t, id := InsertNodeRow(t, ns[i], module_);
      ids := ids + [id];
    }
    assert ns[..|ns|] == ns;
  }

  method InsertEdgeRows(s: Store, ids: seq<int>, moduleIds: seq<int>, es: seq<Edge>) returns (t: Option<Store>)
    ensures t == InsertEdges(s, ids, moduleIds, es)
  {
    t := Some(s);
    for i := 0 to |es|
      invariant t == InsertEdges(s, ids, moduleIds, es[..i])
    {
      assert es[..i + 1][..i] == es[..i];
      if t.Some? {
        var e := LandedEdge(ids, moduleIds, es[i]);
        t := if e.Some? then UpsertEdge(t.value, e.value) else None;
      }
    }
    assert es[..|es|] == es;
  }

  method InsertRefRows(s: Store, ids: seq<int>, moduleIds: seq<int>, rs: seq<Ref>) returns (t: Option<Store>)
    ensures t == InsertRefs(s, ids, moduleIds, rs)
  {
    t := Some(s);
    for i := 0 to |rs|
      invariant t == InsertRefs(s, ids, moduleIds, rs[..i])
    {
      assert rs[..i + 1][..i] == rs[..i];
      if t.Some? {
        var r := LandedRef(ids, moduleIds, rs[i]);
        t := if r.Some? then UpsertRef(t.value, r.value) else None;
      }
    }
    assert rs[..|rs|] == rs;
  }

  // SELECT id FROM nodes WHERE file = ? AND id > ? ORDER BY id LIMIT ?
  method PageOfFile(nodes: map<int, Node>, file: string, after: int, limit: nat) returns (page: seq<int>)
    requires limit > 0
    ensures |page| <= limit
    ensures forall i :: 0 <= i < |page| ==> page[i] in nodes && nodes[page[i]].file == file && after < page[i]
    ensures forall i, j :: 0 <= i < j < |page| ==> page[i] < page[j]
    ensures forall id :: id in nodes && nodes[id].file == file && after < id ==>
              id in page || (|page| == limit && id > page[|page| - 1])
  {
    page := [];
    var rest := set id | id in nodes && nodes[id].file == file && after < id;
    while |page| < limit && rest != {}
      invariant |page| <= limit
      invariant forall i :: 0 <= i < |page| ==> page[i] in nodes && nodes[page[i]].file == file && after < page[i]
      invariant forall i, j :: 0 <= i < j < |page| ==> page[i] < page[j]
      invariant forall id :: id in rest ==> forall i :: 0 <= i < |page| ==> page[i] < id
      invariant forall id :: id in nodes && nodes[id].file == file && after < id ==> id in rest || id in page
      decreases rest
    {
      var least := Least(rest);
      rest := rest - {least};
      page := page + [least];
    }
  }

  lemma HasMember(ids: set<int>)
    requires ids != {}
    ensures exists id :: id in ids
  {
    assert (forall id :: id !in ids) ==> ids == {};
  }

  method Least(ids: set<int>) returns (least: int)
    requires ids != {}
    ensures least in ids && forall id :: id in ids ==> least <= id
  {
    HasMember(ids);
    least :| least in ids;
    var rest := ids - {least};
    while rest != {}
      invariant least in ids && rest <= ids
      invariant forall id :: id in ids && id !in rest ==> least <= id
      decreases rest
    {
      HasMember(rest);
      var id :| id in rest;
      least := if id < least then id else least;
      rest := rest - {id};
    }
  }

  lemma {:induction false} UpsertAllRow(s: Store, es: seq<Edge>, k: EdgeKey)
    requires UpsertAll(s, es).Some?
    ensures var t := UpsertAll(s, es).value;
            && ((exists e :: e in es && e.key == k) ==>
                  k in t.edges && exists e :: e in es && e.key == k && t.edges[k] == e.row)
            && ((forall e :: e in es ==> e.key != k) ==>
                    (k in t.edges <==> k in s.edges) && (k in s.edges ==> t.edges[k] == s.edges[k]))
  {
    if es != [] {
      var last := es[|es| - 1];
      UpsertAllRow(s, es[..|es| - 1], k);
      assert last in es && forall e :: e in es ==> e in es[..|es| - 1] || e == last;
      assert forall e :: e in es[..|es| - 1] ==> e in es;
    }
  }

  // A resolved edge outlives a new synthesis exactly when no synthesized edge
  // has its five-column key; one that has takes the row over, and the next
  // synthesis deletes it.
  lemma ResolvedEdgeOutlivesSynthesis(s: Store, es: seq<Edge>, k: EdgeKey)
    requires k in s.edges && !Synthesized(s.edges[k])
    requires UpsertAll(WithoutSynthesized(s), es).Some?
    requires forall e :: e in es ==> Synthesized(e.row)
    ensures var t := UpsertAll(WithoutSynthesized(s), es).value;
            && k in t.edges
            && (t.edges[k] == s.edges[k] <==> forall e :: e in es ==> e.key != k)
            && (k in WithoutSynthesized(t).edges <==> forall e :: e in es ==> e.key != k)
  {
    hide Synthesized;
    UpsertAllRow(WithoutSynthesized(s), es, k);
  }

  // ---- Parking, target by target ---------------------------------------------

  lemma StartParking(s: Store, file: string)
    requires Valid(s)
    ensures ParkedOver(s, file, {}, s)
    ensures forall k :: Inbound(s, file, k) ==> k.target > 0
  {
  }

  lemma NoneInto(s: Store, file: string, id: int)
    requires id in s.nodes && (s.nodes[id].kind == KIND_FILE || s.nodes[id].kind == KIND_MODULE)
    ensures forall k :: Inbound(s, file, k) ==> k.target != id
  {
  }

  lemma InboundTarget(s: Store, file: string, k: EdgeKey)
    requires Inbound(s, file, k)
    ensures k.target in s.nodes && s.nodes[k.target].file == file
  {
  }

  lemma EveryInboundDone(s: Store, file: string, done: set<EdgeKey>, t: Store)
    requires ParkedOver(s, file, done, t)
    requires forall k :: Inbound(s, file, k) ==> k in done
    ensures Parked(s, file, t)
  {
    hide ParkedFile, RefNameTail;
    assert forall k, r :: ParkedBy(s, file, k, r) ==> k in done && k in s.edges.Keys;
    forall r, k0 | k0 in s.edges.Keys && ParkedBy(s, file, k0, r)
      ensures exists k :: k in s.edges.Keys && ParkedAs(s, file, k, r, t.refs[r])
    {
      var k :| k in done && ParkedAs(s, file, k, r, t.refs[r]);
      assert k in s.edges.Keys;
    }
  }

  lemma HasEdge(ks: set<EdgeKey>)
    requires ks != {}
    ensures exists k :: k in ks
  {
    assert (forall k :: k !in ks) ==> ks == {};
  }

  method ParkInboundEdgesForNode(s: Store, file: string, target: int, tx: Store, ghost done: set<EdgeKey>)
    returns (t: Store, ghost all: set<EdgeKey>)
    requires Valid(s) && Valid(tx) && ParkedOver(s, file, done, tx)
    requires target in s.nodes && s.nodes[target].file == file
    requires s.nodes[target].kind != KIND_FILE && s.nodes[target].kind != KIND_MODULE
    ensures Valid(t) && ParkedOver(s, file, all, t)
    ensures done <= all && forall k :: Inbound(s, file, k) && k.target == target ==> k in all
  {
    hide Valid, ParkedOver, ParkedRef, UpsertRef;
    t, all := tx, done;
    var rest := set k | k in s.edges && k.target == target && k.kind in PARK_KINDS;
    while rest != {}
      invariant Valid(t) && ParkedOver(s, file, all, t)
      invariant done <= all
      invariant forall k :: k in rest ==> k in s.edges && k.target == target && k.kind in PARK_KINDS
      invariant forall k :: Inbound(s, file, k) && k.target == target ==> k in all || k in rest
      decreases rest
    {
      HasEdge(rest);
      var k :| k in rest;
      rest := rest - {k};
      if k.source in s.nodes && s.nodes[k.source].file != file {
        assert Inbound(s, file, k);
        ParkOne(s, file, all, t, k);
        t := UpsertRef(t, ParkedRef(s, k)).value;
        all := all + {k};
      }
    }
  }

  class DB {
    var store: Store
    // How many statements SQLite has failed for a reason of its own.
    ghost var faults: nat

    // SQLite's own troubles (a full disk, a lock held elsewhere) at any statement.
    method Trouble() returns (broken: bool)
      modifies this`faults
      ensures faults == old(faults) + if broken then 1 else 0
    {
      broken := *;
      faults := faults + if broken then 1 else 0;
    }

    constructor ()
      ensures store == Store(map[], map[], map[], map[], 1, 1)
      ensures Valid(store) && Anchored(store)
    {
      store := Store(map[], map[], map[], map[], 1, 1);
    }

    // query_index.go: clears and rewrites one file's rows.
    method ReplaceFileIndex(file: string, b: Batch) returns (outcome: Outcome, ids: seq<int>)
      requires Valid(store)
      modifies this
      ensures outcome == Broken <==> faults != old(faults)
      ensures Valid(store)
      ensures outcome != Committed ==> store == old(store)
      ensures outcome == Committed ==>
                && Replaced(old(store), file, b) == Some(store)
                && ids == Prepared(old(store), file, b).1
      ensures outcome == Rejected ==> Replaced(old(store), file, b) == None
    {
      hide UpsertNodes, InsertEdges, InsertRefs, EdgesPoint, RefsPoint, RefIdsUnique, KeysUnique, Cleared;
      ids := [];
      var broken := Trouble();
      if broken {
        return Broken, [];
      }
      var tx, moduleIds := InsertNodeRows(store, b.modules, true);
      UpsertNodesFit(store, b.modules, true);
      GrowsValid(store, tx);
      ClearedValid(tx, file);
      tx := Cleared(tx, file);
      tx, ids := InsertNodeRows(tx, b.nodes, false);
      assert Prepared(store, file, b) == (tx, ids, moduleIds);
      var linked := InsertEdgeRows(tx, ids, moduleIds, b.edges);
      if linked == None {
        return Rejected, [];
      }
      linked := InsertRefRows(linked.value, ids, moduleIds, b.refs);
      if linked == None {
        return Rejected, [];
      }
      tx := RecordFile(linked.value, b.record);
      assert Replaced(store, file, b) == Some(tx);
      broken := Trouble();
      if broken {
        return Broken, [];
      }
      ReplaceKeepsValid(store, file, b);
      store := tx;
      return Committed, ids;
    }

    // query_refs.go: turns this file's inbound edges into pending refs.
    method ParkInboundRefsForFile(file: string) returns (outcome: Outcome)
      requires Valid(store)
      modifies this
      ensures outcome == Broken <==> faults != old(faults)
      ensures Valid(store) && outcome != Rejected
      ensures outcome == Broken || file == "" ==> store == old(store)
      ensures outcome == Committed && file != "" ==> Parked(old(store), file, store)
    {
      hide Valid, Inbound, ParkedOver, ParkedRef;
      if file == "" {
        return Committed;
      }
      var broken := Trouble();
      if broken {
        return Broken;
      }
      var tx := store;
      var after := 0;
      var more := true;
      ghost var done: set<EdgeKey> := {};
      StartParking(store, file);
      while more
        invariant store == old(store) && faults == old(faults) && Valid(tx)
        invariant ParkedOver(store, file, done, tx)
        invariant forall k :: Inbound(store, file, k) ==> k in done || (more && k.target > after)
        decreases more, set id | id in store.nodes && id > after
      {
        ghost var before := after;
        var page := PageOfFile(store.nodes, file, after, PARK_PAGE);
        for i := 0 to |page|
          invariant store == old(store) && faults == old(faults) && Valid(tx)
          invariant ParkedOver(store, file, done, tx)
          invariant forall k :: Inbound(store, file, k) ==> k in done || (k.target > before && k.target !in page[..i])
          invariant after == if i == 0 then before else page[i - 1]
        {
          after := page[i];
          ghost var was := done;
          if store.nodes[page[i]].kind != KIND_FILE && store.nodes[page[i]].kind != KIND_MODULE {
            tx, done := ParkInboundEdgesForNode(store, file, page[i], tx, done);
          } else {
            NoneInto(store, file, page[i]);
          }
          assert page[..i + 1] == page[..i] + [page[i]];
        }
        assert page[..|page|] == page;
        forall k | Inbound(store, file, k)
          ensures k in done || (|page| == PARK_PAGE && k.target > after)
        {
          InboundTarget(store, file, k);
          assert k.target in page ==> k.target in page[..|page|];
        }
        if |page| > 0 {
          assert after in (set id | id in store.nodes && id > before) - (set id | id in store.nodes && id > after);
          assert (set id | id in store.nodes && id > after) <= (set id | id in store.nodes && id > before);
        }
        more := |page| == PARK_PAGE;
      }
      EveryInboundDone(store, file, done, tx);
      broken := Trouble();
      if broken {
        return Broken;
      }
      store := tx;
      return Committed;
    }

    // query_refs.go: a batch of resolved refs in one transaction.
    method ApplyResolvedRefs(batch: seq<(Edge, int)>) returns (outcome: Outcome)
      requires Valid(store)
      modifies this
      ensures outcome == Broken <==> faults != old(faults)
      ensures Valid(store)
      ensures outcome != Committed ==> store == old(store)
      ensures outcome == Committed ==> ApplyAll(old(store), batch) == Some(store)
      ensures outcome == Rejected ==> ApplyAll(old(store), batch) == None
    {
      hide Valid;
      if |batch| == 0 {
        return Committed;
      }
      var broken := Trouble();
      if broken {
        return Broken;
      }
      var tx := Some(store);
      for i := 0 to |batch|
        invariant store == old(store)
        invariant tx == ApplyAll(store, batch[..i])
      {
        assert batch[..i + 1][..i] == batch[..i];
        if tx.Some? {
          tx := UpsertEdge(tx.value, batch[i].0);
          if tx.Some? {
            tx := Some(DeleteRef(tx.value, batch[i].1));
          }
        }
      }
      assert batch[..|batch|] == batch;
      if tx == None {
        return Rejected;
      }
      broken := Trouble();
      if broken {
        return Broken;
      }
      ApplyAllExactly(store, batch);
      store := tx.value;
      return Committed;
    }

    // query_edges.go: one edge in a transaction of its own.
    method UpsertOneEdge(e: Edge) returns (ok: bool)
      requires Valid(store)
      modifies this`store
      ensures Valid(store)
      ensures ok <==> UpsertEdge(old(store), e).Some?
      ensures store == if ok then UpsertEdge(old(store), e).value else old(store)
    {
      var t := UpsertEdge(store, e);
      if t == None {
        return false;
      }
      UpsertEdgeValid(store, e);
      store := t.value;
      return true;
    }

    method DeleteUnresolvedRef(id: int)
      requires Valid(store)
      modifies this`store
      ensures Valid(store) && store == DeleteRef(old(store), id)
    {
      DeleteRefValid(store, id);
      store := DeleteRef(store, id);
    }

    // query_refs.go: one failed attempt; true when this one reaches the cap.
    method MarkUnresolvedFailed(id: int, nameTail: string, cap: int) returns (abandoned: bool)
      requires Valid(store)
      modifies this`store
      ensures Valid(store) && store == MarkFailed(old(store), id, nameTail, cap)
      ensures abandoned <==> Abandons(old(store), id, cap)
      ensures abandoned <==> exists k :: k in store.refs && store.refs[k].id == id &&
                                 store.refs[k].status == "abandoned"
      ensures Aged(old(store), cap) ==> Aged(store, cap)
    {
      MarkFailedValid(store, id, nameTail, cap);
      AbandonedIsMarked(store, id, nameTail, cap);
      abandoned := Abandons(store, id, cap);
      store := MarkFailed(store, id, nameTail, cap);
    }

    // query_edges.go: the synthesized edges, old for new, in one transaction.
    method ReplaceSynthesizedEdges(es: seq<Edge>) returns (outcome: Outcome)
      requires Valid(store)
      modifies this
      ensures outcome == Broken <==> faults != old(faults)
      ensures Valid(store)
      ensures outcome != Committed ==> store == old(store)
      ensures outcome == Committed ==> UpsertAll(WithoutSynthesized(old(store)), es) == Some(store)
      ensures outcome == Rejected ==> UpsertAll(WithoutSynthesized(old(store)), es) == None
    {
      hide Valid, WithoutSynthesized, UpsertEdge;
      var broken := Trouble();
      if broken {
        return Broken;
      }
      var tx := Some(WithoutSynthesized(store));
      for i := 0 to |es|
        invariant store == old(store)
        invariant tx == UpsertAll(WithoutSynthesized(store), es[..i])
      {
        assert es[..i + 1][..i] == es[..i];
        tx := if tx.Some? then UpsertEdge(tx.value, es[i]) else None;
      }
      assert es[..|es|] == es;
      if tx == None {
        return Rejected;
      }
      broken := Trouble();
      if broken {
        return Broken;
      }
      WithoutSynthesizedValid(store);
      UpsertAllKeeps(WithoutSynthesized(store), es);
      store := tx.value;
      return Committed;
    }

    // query_files.go: drops everything a file brought.
    method ClearFile(path: string) returns (outcome: Outcome)
      requires Valid(store)
      modifies this
      ensures outcome == Broken <==> faults != old(faults)
      ensures Valid(store) && outcome != Rejected
      ensures outcome == Broken ==> store == old(store)
      ensures outcome == Committed ==>
                && store == WithoutFile(old(store), path)
                && (forall i :: i in store.nodes <==> i in old(store).nodes && old(store).nodes[i].file != path)
                && (forall i :: i in store.nodes ==> store.nodes[i] == old(store).nodes[i])
                && store.edges == EdgesElsewhere(old(store), path)
                && store.refs == RefsElsewhere(old(store), path)
                && store.files == old(store).files - {path}
                && store.nextNode == old(store).nextNode && store.nextRef == old(store).nextRef
      ensures Anchored(old(store)) ==>
                && Anchored(store)
                && (outcome == Committed ==> forall k :: k in store.edges ==> store.edges[k].file != path)
      ensures forall cap :: Aged(old(store), cap) ==> Aged(store, cap)
    {
      var broken := Trouble();
      if broken {
        return Broken;
      }
      ClearedValid(store, path);
      ClearedNodes(store, path);
      ClearedTables(store, store, path);
      store := WithoutFile(store, path);
      return Committed;
    }

    // meta.go: empties the index tables; the id counters go on.
    method WipeIndex() returns (outcome: Outcome)
      requires Valid(store)
      modifies this
      ensures outcome == Broken <==> faults != old(faults)
      ensures Valid(store) && outcome != Rejected
      ensures store == if outcome == Committed then Wiped(old(store)) else old(store)
      ensures outcome == Committed ==>
                store.nodes.Keys == {} && store.edges.Keys == {} && store.refs.Keys == {} && store.files.Keys == {}
      ensures store.nextNode == old(store).nextNode && store.nextRef == old(store).nextRef
      ensures Anchored(old(store)) ==> Anchored(store)
      ensures forall cap :: Aged(old(store), cap) ==> Aged(store, cap)
    {
      var broken := Trouble();
      if broken {
        return Broken;
      }
      store := Wiped(store);
      return Committed;
    }
  }
}
