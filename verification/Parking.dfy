/** Parking inbound edges before a file's nodes are replaced (query_refs.go):
    what is parked, and why nothing of it is lost. */
module Parking {
  import opened IndexStore
  import opened FileReplacement
  import opened Names

  const PARK_KINDS := ["calls", "references", "bridge", "extends", "implements"]

  // ---- What is parked ---------------------------------------------------------

  // Edge k of s is an inbound edge of `file` that its owner will not rebuild:
  // a symbol-level edge of another file's row into a symbol of this one.
  ghost predicate Inbound(s: Store, file: string, k: EdgeKey) {
    && k in s.edges && k.kind in PARK_KINDS
    && k.target in s.nodes && s.nodes[k.target].file == file
    && s.nodes[k.target].kind != KIND_FILE && s.nodes[k.target].kind != KIND_MODULE
    && k.source in s.nodes && s.nodes[k.source].file != file
  }

  function ParkedKey(s: Store, k: EdgeKey): RefKey
    requires k.target in s.nodes
  {
    RefKey(k.source, s.nodes[k.target].name, k.kind, k.line, k.col)
  }

  function ParkedFile(s: Store, k: EdgeKey): string
    requires k in s.edges && k.source in s.nodes
  {
    if s.edges[k].file == "" then s.nodes[k.source].file else s.edges[k].file
  }

  function ParkedRef(s: Store, k: EdgeKey): Ref
    requires k in s.edges && k.source in s.nodes && k.target in s.nodes
  {
    Ref(ParkedKey(s, k), ParkedFile(s, k), s.nodes[k.source].language, PENDING,
        RefNameTail(s.nodes[k.target].name), "")
  }

  ghost predicate ParkedBy(s: Store, file: string, k: EdgeKey, r: RefKey) {
    Inbound(s, file, k) && ParkedKey(s, k) == r
  }

  // Row `row` is what parking edge k writes under r: pending again, an
  // earlier row's id and attempts kept.
  ghost predicate ParkedAs(s: Store, file: string, k: EdgeKey, r: RefKey, row: RefRow) {
    && ParkedBy(s, file, k, r)
    && row.status == PENDING
    && row.filePath == (if s.edges[k].file != "" then s.edges[k].file else s.nodes[k.source].file)
    && row.language == s.nodes[k.source].language
    && row.nameTail == RefNameTail(s.nodes[k.target].name)
    && row.candidates == ""
    && (if r in s.refs then row.id == s.refs[r].id && row.attempts == s.refs[r].attempts else row.attempts == 0)
  }

  // t is s with the inbound edges among `done` parked, and nothing else.
  ghost predicate ParkedOver(s: Store, file: string, done: set<EdgeKey>, t: Store) {
    && t == s.(refs := t.refs, nextRef := t.nextRef) && IdsForward(s, t)
    && (forall r :: r in t.refs <==> r in s.refs || exists k :: k in done && ParkedBy(s, file, k, r))
    && (forall r :: r in s.refs && (forall k :: k in done ==> !ParkedBy(s, file, k, r)) ==> t.refs[r] == s.refs[r])
    && (forall r, k0 :: k0 in done && ParkedBy(s, file, k0, r) ==>
          exists k :: k in done && ParkedAs(s, file, k, r, t.refs[r]))
  }

  ghost predicate Parked(s: Store, file: string, t: Store) {
    ParkedOver(s, file, s.edges.Keys, t)
  }

  lemma ParkOne(s: Store, file: string, done: set<EdgeKey>, t: Store, k: EdgeKey)
    requires Valid(s) && Valid(t) && ParkedOver(s, file, done, t) && Inbound(s, file, k)
    ensures UpsertRef(t, ParkedRef(s, k)).Some?
    ensures var u := UpsertRef(t, ParkedRef(s, k)).value;
            Valid(u) && ParkedOver(s, file, done + {k}, u)
  {
    hide Valid, Inbound, RefNameTail, IdsForward;
    assert k.source in s.nodes && k.target in s.nodes && k in s.edges by { InboundEnds(s, file, k); }
    assert Valid(UpsertRef(t, ParkedRef(s, k)).value) by { UpsertRefValid(t, ParkedRef(s, k)); }
    UpsertMovesIdsForward(s, t, ParkedRef(s, k));
    var u := UpsertRef(t, ParkedRef(s, k)).value;
    var p := ParkedKey(s, k);
    assert ParkedBy(s, file, k, p);
    forall r | r in u.refs
      ensures r in s.refs || exists j :: j in done + {k} && ParkedBy(s, file, j, r)
    {
      if r != p && r !in s.refs {
        var j :| j in done && ParkedBy(s, file, j, r);
        assert j in done + {k};
      }
    }
    forall r | r in s.refs && (forall j :: j in done + {k} ==> !ParkedBy(s, file, j, r))
      ensures u.refs[r] == s.refs[r]
    {
      assert k in done + {k};
      assert forall j :: j in done ==> j in done + {k};
    }
    forall r, j0 | j0 in done + {k} && ParkedBy(s, file, j0, r)
      ensures exists j :: j in done + {k} && ParkedAs(s, file, j, r, u.refs[r])
    {
      if r == p {
        if p in t.refs {
          KeptCount(s, file, done, t, p);
        }
        assert ParkedAs(s, file, k, r, u.refs[r]);
        assert k in done + {k};
      } else {
        assert j0 in done;
        var j :| j in done && ParkedAs(s, file, j, r, t.refs[r]);
        assert j in done + {k};
      }
    }
  }

  lemma UpsertMovesIdsForward(s: Store, t: Store, r: Ref)
    requires IdsForward(s, t) && UpsertRef(t, r).Some?
    ensures IdsForward(s, UpsertRef(t, r).value)
  {
  }

  lemma InboundEnds(s: Store, file: string, k: EdgeKey)
    requires Inbound(s, file, k)
    ensures k in s.edges && k.source in s.nodes && k.target in s.nodes
  {
  }

  lemma KeptCount(s: Store, file: string, done: set<EdgeKey>, t: Store, r: RefKey)
    requires ParkedOver(s, file, done, t) && r in t.refs
    ensures r in s.refs ==> t.refs[r].id == s.refs[r].id && t.refs[r].attempts == s.refs[r].attempts
    ensures r !in s.refs ==> t.refs[r].attempts == 0
  {
    if k0 :| k0 in done && ParkedBy(s, file, k0, r) {
      var k :| k in done && ParkedAs(s, file, k, r, t.refs[r]);
    }
  }

  // ---- What parking keeps -------------------------------------------------------

  lemma ParkedFileIsSources(s: Store, k: EdgeKey)
    requires Anchored(s) && k in s.edges && k.source in s.nodes
    ensures ParkedFile(s, k) == s.nodes[k.source].file
  {
  }

  lemma ParkedRefIsAnchored(s: Store, file: string, t: Store, k: EdgeKey, r: RefKey)
    requires Parked(s, file, t) && Anchored(s) && ParkedBy(s, file, k, r)
    ensures r in t.refs && t.refs[r].filePath == s.nodes[k.source].file && t.refs[r].status == PENDING
  {
    hide Anchored, RefNameTail;
    assert k in s.edges.Keys;
    var j :| j in s.edges.Keys && ParkedAs(s, file, j, r, t.refs[r]);
    ParkedFileIsSources(s, j);
  }

  lemma ParkedKeepsAnchors(s: Store, file: string, t: Store)
    requires Parked(s, file, t) && Anchored(s)
    ensures Anchored(t)
  {
    hide RefNameTail, ParkedFile, ParkedAs;
    forall r | r in t.refs && r.from in t.nodes
      ensures t.refs[r].filePath == t.nodes[r.from].file
    {
      if k :| k in s.edges.Keys && ParkedBy(s, file, k, r) {
        ParkedRefIsAnchored(s, file, t, k, r);
      }
    }
  }

  lemma ParkedKeepsAges(s: Store, file: string, t: Store, cap: int)
    requires Parked(s, file, t) && Aged(s, cap)
    ensures Aged(t, cap)
  {
    forall r | r in t.refs
      ensures t.refs[r].attempts >= 0 && (t.refs[r].status == PENDING || (r in s.refs && t.refs[r] == s.refs[r]))
    {
      if k0 :| k0 in s.edges.Keys && ParkedBy(s, file, k0, r) {
        var k :| k in s.edges.Keys && ParkedAs(s, file, k, r, t.refs[r]);
      } else {
        assert t.refs[r] == s.refs[r];
      }
    }
  }

  // A ref of a tidy batch starts at a row the transaction has just created.
  lemma BatchRefStartsFresh(s: Store, file: string, b: Batch, r: Ref)
    requires Valid(s) && Tidy(b, file) && r in b.refs
    ensures var (p, ids, moduleIds) := Prepared(s, file, b);
            LandedRef(ids, moduleIds, r).Some? && LandedRef(ids, moduleIds, r).value.key.from >= s.nextNode
  {
    hide Prepared;
    PreparedIds(s, file, b);
    PreparedNodes(s, file, b);
    var (p, ids, moduleIds) := Prepared(s, file, b);
    var i := -(r.key.from + 1);
    assert b.nodes[i] in b.nodes;
    assert KeyOf(p.nodes[ids[i]]).file == file;
  }

  // A ref of another file's row that this batch does not write is still there
  // after the commit, as it was.
  lemma ForeignRefOutlivesReplace(s: Store, file: string, b: Batch, r: RefKey)
    requires Valid(s) && r in s.refs && s.refs[r].filePath != file && s.nodes[r.from].file != file
    requires Tidy(b, file) && Replaced(s, file, b).Some?
    ensures r in Replaced(s, file, b).value.refs && Replaced(s, file, b).value.refs[r] == s.refs[r]
    ensures r.from in Replaced(s, file, b).value.nodes
  {
    hide Prepared, InsertEdges, InsertRefs, KeysUnique, RefIdsUnique, EdgesPoint, Tidy;
    PreparedIds(s, file, b);
    PreparedNodes(s, file, b);
    PreparedTables(s, file, b);
    var (p, ids, moduleIds) := Prepared(s, file, b);
    InsertEdgesExactly(p, ids, moduleIds, b.edges);
    var u := InsertEdges(p, ids, moduleIds, b.edges).value;
    InsertRefsExactly(u, ids, moduleIds, b.refs);
    forall i | 0 <= i < |b.refs|
      ensures !RefLandsOn(ids, moduleIds, b.refs[i], r)
    {
      BatchRefStartsFresh(s, file, b, b.refs[i]);
    }
  }

  // Re-indexing loses no inbound reference: every symbol-level edge from
  // another file into a symbol of this one is a pending ref of its source
  // after park and replace, under the same name, kind, line and column.
  lemma NoInboundEdgeIsLost(s: Store, file: string, parked: Store, b: Batch, k: EdgeKey)
    requires Valid(s) && Anchored(s) && Inbound(s, file, k)
    requires Valid(parked) && Parked(s, file, parked)
    requires Tidy(b, file) && Replaced(parked, file, b).Some?
    ensures var t := Replaced(parked, file, b).value;
            var r := RefKey(k.source, s.nodes[k.target].name, k.kind, k.line, k.col);
            && r in t.refs && t.refs[r].status == PENDING && t.refs[r].filePath == s.nodes[k.source].file
            && k.source in t.nodes && KeyOf(t.nodes[k.source]) == KeyOf(s.nodes[k.source])
  {
    hide Replaced, Tidy, RefNameTail, Valid, Anchored;
    var r := ParkedKey(s, k);
    assert ParkedBy(s, file, k, r);
    ParkedRefIsAnchored(s, file, parked, k, r);
    ForeignRefOutlivesReplace(parked, file, b, r);
    ReplaceKeepsKeys(parked, file, b);
  }
}
