/** Persisting a resolution pass (resolver.go): batches with a per-ref fallback
    against one write per ref in order. */
module EdgeWriter {
  import opened Wrappers
  import opened IndexStore
  import opened Names
  import opened Database

  // An unresolved ref as a pass read it.
  datatype PendingRef = PendingRef(id: int, from: int, name: string, kind: string, line: int, col: int,
                                   filePath: string, nameTail: string)

  // What the matcher chose for a ref.
  datatype Match = Match(target: int, provenance: string)

  const IMPORTS := "imports"

  // What resolveOne reads of the store: the candidates and the import edges.
  datatype Sight = Sight(nodes: map<int, Node>, imports: map<EdgeKey, EdgeRow>)

  function SightOf(s: Store): Sight {
    Sight(s.nodes, map k | k in s.edges && k.kind == IMPORTS :: s.edges[k])
  }

  // resolveOne, a function of the ref and of what it reads.
  type Decision = (Sight, PendingRef) -> Option<Match>

  datatype Plan = Plan(ref: PendingRef, match_: Match)

  datatype Tally = Tally(store: Store, resolved: int, failed: int, abandoned: int)

  function PlanEdge(p: Plan): Edge {
    Edge(EdgeKey(p.ref.from, p.match_.target, EdgeKind(p.ref), p.ref.line, p.ref.col),
         EdgeRow(p.ref.filePath, p.match_.provenance, ""))
  }

  function EdgeKind(r: PendingRef): string {
    if r.kind == "" then "calls" else r.kind
  }

  // ---- One ref at a time -------------------------------------------------------

  function ApplyOne(s: Store, p: Plan): Option<Store> {
    match UpsertEdge(s, PlanEdge(p))
    case None => None
    case Some(t) => Some(DeleteRef(t, p.ref.id))
  }

  // Each plan applied alone, in order; the second part lists those refused.
  function ApplyEach(s: Store, plans: seq<Plan>): (r: (Store, seq<Plan>))
    ensures |r.1| <= |plans|
    ensures forall p :: p in r.1 ==> p in plans
  {
    if plans == [] then
      (s, [])
    else
      var (t, refused) := ApplyEach(s, plans[..|plans| - 1]);
      match ApplyOne(t, plans[|plans| - 1])
      case None => (t, refused + [plans[|plans| - 1]])
      case Some(u) => (u, refused)
  }

  function TailOf(r: PendingRef): string {
    if r.nameTail == "" then ResolverTail(r.name) else r.nameTail
  }

  function Miss(t: Tally, r: PendingRef, cap: int): Tally {
    Tally(MarkFailed(t.store, r.id, TailOf(r), cap), t.resolved, t.failed + 1,
          t.abandoned + if Abandons(t.store, r.id, cap) then 1 else 0)
  }

  // One ref of a pass: its edge is written and its row deleted, or its row is
  // marked failed.
  function Attempt(t: Tally, r: PendingRef, m: Option<Match>, cap: int): Tally {
    match m
    case None => Miss(t, r, cap)
    case Some(m) =>
      match ApplyOne(t.store, Plan(r, m))
      case Some(u) => t.(store := u, resolved := t.resolved + 1)
      case None => Miss(t, r, cap)
  }

  predicate Seen(queue: seq<PendingRef>, id: int) {
    exists i :: 0 <= i < |queue| && queue[i].id == id
  }

  // The whole pass, one ref at a time in order, a ref met again skipped. Each
  // ref is decided on the store that the refs before it have left.
  function InOrder(s: Store, queue: seq<PendingRef>, decide: Decision, cap: int): Tally {
    if queue == [] then
      Tally(s, 0, 0, 0)
    else
      var n := |queue| - 1;
      var t := InOrder(s, queue[..n], decide, cap);
      if Seen(queue[..n], queue[n].id) then t
      else Attempt(t, queue[n], decide(SightOf(t.store), queue[n]), cap)
  }

  function Ids(queue: seq<PendingRef>): set<int> {
    set r | r in queue :: r.id
  }

  lemma IdsOneMore(queue: seq<PendingRef>)
    requires queue != []
    ensures var n := |queue| - 1;
            && Ids(queue) == Ids(queue[..n]) + {queue[n].id}
            && (Seen(queue[..n], queue[n].id) <==> queue[n].id in Ids(queue[..n]))
  {
    assert queue == queue[..|queue| - 1] + [queue[|queue| - 1]];
  }

  // Every ref attempted is counted once, as resolved or as failed.
  lemma {:induction false} NoRefIsUncounted(s: Store, queue: seq<PendingRef>, decide: Decision, cap: int)
    ensures var t := InOrder(s, queue, decide, cap);
            && t.resolved + t.failed == |Ids(queue)|
            && 0 <= t.abandoned <= t.failed
  {
    hide ApplyOne, MarkFailed, Abandons, TailOf, Seen, Ids;
    if queue == [] {
      NoIds(queue);
    } else {
      var n := |queue| - 1;
      NoRefIsUncounted(s, queue[..n], decide, cap);
      IdsOneMore(queue);
    }
  }

  lemma NoIds(queue: seq<PendingRef>)
    requires queue == []
    ensures Ids(queue) == {}
  {
  }

  // ---- A pass does not see its own writes -----------------------------------------

  lemma ApplyOneKeepsSight(s: Store, p: Plan)
    requires EdgeKind(p.ref) != IMPORTS && ApplyOne(s, p).Some?
    ensures SightOf(ApplyOne(s, p).value) == SightOf(s)
  {
    var t := ApplyOne(s, p).value;
    assert SightOf(t).imports == SightOf(s).imports;
  }

  ghost predicate NoImports(plans: seq<Plan>) {
    forall p :: p in plans ==> EdgeKind(p.ref) != IMPORTS
  }

  lemma {:induction false} ApplyEachKeepsSight(s: Store, plans: seq<Plan>)
    requires NoImports(plans)
    ensures SightOf(ApplyEach(s, plans).0) == SightOf(s)
  {
    hide ApplyOne, SightOf;
    if plans != [] {
      var n := |plans| - 1;
      assert plans[n] in plans && forall p :: p in plans[..n] ==> p in plans;
      ApplyEachKeepsSight(s, plans[..n]);
      if ApplyOne(ApplyEach(s, plans[..n]).0, plans[n]).Some? {
        ApplyOneKeepsSight(ApplyEach(s, plans[..n]).0, plans[n]);
      }
    }
  }

  lemma MarkKeepsSight(s: Store, id: int, tail: string, cap: int)
    ensures SightOf(MarkFailed(s, id, tail, cap)) == SightOf(s)
  {
  }

  // Resolving refs that are no imports changes nothing resolveOne reads, so
  // every ref of a pass is decided as on the store the pass began with.
  lemma {:induction false} PassKeepsSight(s: Store, queue: seq<PendingRef>, decide: Decision, cap: int)
    requires forall r :: r in queue ==> EdgeKind(r) != IMPORTS
    ensures SightOf(InOrder(s, queue, decide, cap).store) == SightOf(s)
  {
    hide ApplyOne, SightOf, MarkFailed, TailOf, Abandons;
    if queue != [] {
      var n := |queue| - 1;
      assert queue[n] in queue && forall r :: r in queue[..n] ==> r in queue;
      PassKeepsSight(s, queue[..n], decide, cap);
      var t := InOrder(s, queue[..n], decide, cap);
      MarkKeepsSight(t.store, queue[n].id, TailOf(queue[n]), cap);
      match decide(SightOf(t.store), queue[n])
      case None =>
      case Some(m) =>
        if ApplyOne(t.store, Plan(queue[n], m)).Some? {
          ApplyOneKeepsSight(t.store, Plan(queue[n], m));
        }
    }
  }

  // ---- What a pass leaves in the tables ----------------------------------------------

  // Ref number i of the queue is met for the first time.
  ghost predicate FirstMet(queue: seq<PendingRef>, i: int) {
    0 <= i < |queue| && forall j :: 0 <= j < i ==> queue[j].id != queue[i].id
  }

  // The edge of ref number i when the ref is decided and its rows exist: from
  // the node it was found in to the target, of its own kind, at its own place,
  // under its own file.
  ghost function Landing(s: Store, queue: seq<PendingRef>, decide: Decision, i: int): Option<Edge> {
    if !FirstMet(queue, i) then None
    else
      var r := queue[i];
      match decide(SightOf(s), r)
      case None => None
      case Some(m) =>
        if r.from in s.nodes && m.target in s.nodes then
          Some(Edge(EdgeKey(r.from, m.target, if r.kind == "" then "calls" else r.kind, r.line, r.col),
                    EdgeRow(r.filePath, m.provenance, "")))
        else None
  }

  ghost predicate Lands(s: Store, queue: seq<PendingRef>, decide: Decision, i: int, k: EdgeKey) {
    Landing(s, queue, decide, i).Some? && Landing(s, queue, decide, i).value.key == k
  }

  ghost predicate LandsLast(s: Store, queue: seq<PendingRef>, decide: Decision, i: int, k: EdgeKey) {
    Lands(s, queue, decide, i, k) && forall j :: i < j < |queue| ==> !Lands(s, queue, decide, j, k)
  }

  // Ref number i has this id, is met first, and is resolved or not.
  ghost predicate Meets(s: Store, queue: seq<PendingRef>, decide: Decision, i: int, id: int, resolved: bool) {
    FirstMet(queue, i) && queue[i].id == id && Landing(s, queue, decide, i).Some? == resolved
  }

  lemma InitialLanding(s: Store, queue: seq<PendingRef>, decide: Decision, i: int)
    requires queue != [] && i < |queue| - 1
    ensures Landing(s, queue[..|queue| - 1], decide, i) == Landing(s, queue, decide, i)
    ensures FirstMet(queue[..|queue| - 1], i) <==> FirstMet(queue, i)
    ensures 0 <= i ==> queue[..|queue| - 1][i] == queue[i]
  {
    hide SightOf;
    var init := queue[..|queue| - 1];
    assert forall j :: 0 <= j < |init| ==> init[j] == queue[j];
  }

  lemma MetLast(queue: seq<PendingRef>)
    requires queue != []
    ensures FirstMet(queue, |queue| - 1) <==> !Seen(queue[..|queue| - 1], queue[|queue| - 1].id)
  {
    var n := |queue| - 1;
    assert forall j :: 0 <= j < n ==> queue[..n][j] == queue[j];
  }

  // The mark of a failed attempt, on the rows of refs.
  function Failed(row: RefRow, r: PendingRef, cap: int): RefRow {
    row.(attempts := row.attempts + 1,
         status := if row.attempts + 1 >= cap then "abandoned" else "failed",
         nameTail := if r.nameTail == "" then ResolverTail(r.name) else r.nameTail)
  }

  function FailedIf(row: RefRow, r: PendingRef, cap: int): RefRow {
    if row.id == r.id then Failed(row, r, cap) else row
  }

  // One more attempt takes the row with this id to the cap.
  ghost predicate UsesUp(s: Store, id: int, cap: int) {
    exists r :: r in s.refs && s.refs[r].id == id && s.refs[r].attempts + 1 >= cap
  }

  // What the last ref of a queue does, from t to u.
  ghost predicate LastStep(s: Store, queue: seq<PendingRef>, decide: Decision, cap: int, t: Tally, u: Tally)
    requires queue != []
  {
    var n := |queue| - 1;
    && u.store == t.store.(edges := u.store.edges, refs := u.store.refs)
    && if !FirstMet(queue, n) then u == t
       else match Landing(s, queue, decide, n)
         case Some(e) =>
           && u.store.edges == t.store.edges[e.key := e.row]
           && u.store.refs == (map r | r in t.store.refs && t.store.refs[r].id != queue[n].id :: t.store.refs[r])
           && u.resolved == t.resolved + 1 && u.failed == t.failed && u.abandoned == t.abandoned
         case None =>
           && u.store.edges == t.store.edges && u.store.refs.Keys == t.store.refs.Keys
           && (forall r | r in t.store.refs ::
                u.store.refs[r] == FailedIf(t.store.refs[r], queue[n], cap))
           && u.failed == t.failed + 1 && u.resolved == t.resolved
           && u.abandoned == t.abandoned + if UsesUp(t.store, queue[n].id, cap) then 1 else 0
  }

  lemma StepIs(s: Store, queue: seq<PendingRef>, decide: Decision, cap: int)
    requires queue != [] && forall r :: r in queue ==> EdgeKind(r) != IMPORTS
    ensures LastStep(s, queue, decide, cap, InOrder(s, queue[..|queue| - 1], decide, cap),
                     InOrder(s, queue, decide, cap))
  {
    hide MarkFailed, TailOf, Abandons, Failed, ApplyOne, EdgeKind, UsesUp;
    var n := |queue| - 1;
    assert queue[n] in queue && forall r :: r in queue[..n] ==> r in queue;
    PassKeepsSight(s, queue[..n], decide, cap);
    MetLast(queue);
    var t := InOrder(s, queue[..n], decide, cap);
    assert t.store.nodes == SightOf(t.store).nodes == SightOf(s).nodes == s.nodes;
    if FirstMet(queue, n) {
      MissWrites(t, queue[n], cap);
      if decide(SightOf(s), queue[n]).Some? {
        PlanWrites(t.store, queue[n], decide(SightOf(s), queue[n]).value);
      }
    }
  }

  lemma MissWrites(t: Tally, r: PendingRef, cap: int)
    ensures var u := Miss(t, r, cap);
            && u.store == t.store.(refs := u.store.refs) && u.store.refs.Keys == t.store.refs.Keys
            && (forall q | q in t.store.refs :: u.store.refs[q] == FailedIf(t.store.refs[q], r, cap))
            && u.abandoned == t.abandoned + if UsesUp(t.store, r.id, cap) then 1 else 0
  {
  }

  lemma PlanWrites(t: Store, r: PendingRef, m: Match)
    ensures ApplyOne(t, Plan(r, m)).Some? <==> r.from in t.nodes && m.target in t.nodes
    ensures ApplyOne(t, Plan(r, m)).Some? ==>
              var u := ApplyOne(t, Plan(r, m)).value;
              var k := EdgeKey(r.from, m.target, if r.kind == "" then "calls" else r.kind, r.line, r.col);
              && u == t.(edges := t.edges[k := EdgeRow(r.filePath, m.provenance, "")],
                         refs := map q | q in t.refs && t.refs[q].id != r.id :: t.refs[q])
  {
  }

  ghost predicate EdgeAfter(s: Store, queue: seq<PendingRef>, decide: Decision, t: Store, k: EdgeKey) {
    && (k in t.edges <==> k in s.edges || exists i :: Lands(s, queue, decide, i, k))
    && (k in s.edges && (forall i :: !Lands(s, queue, decide, i, k)) ==> t.edges[k] == s.edges[k])
    && (forall i :: LandsLast(s, queue, decide, i, k) ==>
          k in t.edges && t.edges[k] == Landing(s, queue, decide, i).value.row)
  }

  lemma LandsMore(s: Store, queue: seq<PendingRef>, decide: Decision, k: EdgeKey)
    requires queue != []
    ensures var n, init := |queue| - 1, queue[..|queue| - 1];
            && ((exists i :: Lands(s, queue, decide, i, k)) <==>
                 (exists i :: Lands(s, init, decide, i, k)) || Lands(s, queue, decide, n, k))
            && (forall i :: LandsLast(s, queue, decide, i, k) <==>
                 if i == n then Lands(s, queue, decide, n, k)
                 else LandsLast(s, init, decide, i, k) && !Lands(s, queue, decide, n, k))
            && (forall i :: LandsLast(s, init, decide, i, k) ==>
                  Landing(s, init, decide, i) == Landing(s, queue, decide, i))
  {
    var n, init := |queue| - 1, queue[..|queue| - 1];
    LandingInRange(s, queue, decide);
    LandingInRange(s, init, decide);
    hide Landing;
    forall i | i < n
      ensures Landing(s, init, decide, i) == Landing(s, queue, decide, i)
      ensures Lands(s, init, decide, i, k) <==> Lands(s, queue, decide, i, k)
    {
      InitialLanding(s, queue, decide, i);
    }
    forall i
      ensures Lands(s, queue, decide, i, k) <==>
                (i < n && Lands(s, init, decide, i, k)) || (i == n && Lands(s, queue, decide, n, k))
      ensures Lands(s, init, decide, i, k) ==> i < n
    {
    }
    hide Lands;
    forall i
      ensures LandsLast(s, queue, decide, i, k) <==>
                if i == n then Lands(s, queue, decide, n, k)
                else LandsLast(s, init, decide, i, k) && !Lands(s, queue, decide, n, k)
    {
      if i < n && LandsLast(s, init, decide, i, k) && !Lands(s, queue, decide, n, k) {
        assert forall j :: i < j < n + 1 ==> !Lands(s, queue, decide, j, k);
      }
    }
  }

  lemma EdgeStep(s: Store, queue: seq<PendingRef>, decide: Decision, cap: int, t: Tally, u: Tally, k: EdgeKey)
    requires queue != [] && LastStep(s, queue, decide, cap, t, u)
             && EdgeAfter(s, queue[..|queue| - 1], decide, t.store, k)
    ensures EdgeAfter(s, queue, decide, u.store, k)
  {
    var n := |queue| - 1;
    hide FirstMet, FailedIf;
    assert !FirstMet(queue, n) ==> Landing(s, queue, decide, n) == None;
    hide Landing;
    LandsMore(s, queue, decide, k);
    assert Lands(s, queue, decide, n, k) <==>
             Landing(s, queue, decide, n).Some? && Landing(s, queue, decide, n).value.key == k;
    hide Lands, LandsLast;
  }

  lemma LandingInRange(s: Store, queue: seq<PendingRef>, decide: Decision)
    ensures forall i :: Landing(s, queue, decide, i).Some? ==> 0 <= i < |queue|
  {
    hide SightOf;
  }

  ghost predicate RefAfter(s: Store, queue: seq<PendingRef>, decide: Decision, cap: int, t: Store, r: RefKey) {
    && (r in t.refs <==> r in s.refs && forall i :: !Meets(s, queue, decide, i, s.refs[r].id, true))
    && (r in t.refs ==>
          && ((forall i :: !Meets(s, queue, decide, i, s.refs[r].id, false)) ==> t.refs[r] == s.refs[r])
          && forall i :: Meets(s, queue, decide, i, s.refs[r].id, false) ==>
               t.refs[r] == Failed(s.refs[r], queue[i], cap))
  }

  lemma RefStep(s: Store, queue: seq<PendingRef>, decide: Decision, cap: int, t: Tally, u: Tally, r: RefKey)
    requires queue != [] && LastStep(s, queue, decide, cap, t, u)
    requires RefAfter(s, queue[..|queue| - 1], decide, cap, t.store, r)
    ensures RefAfter(s, queue, decide, cap, u.store, r)
  {
    var n := |queue| - 1;
    var init := queue[..n];
    hide Landing, Failed;
    forall i, id, b
      ensures Meets(s, queue, decide, i, id, b) <==>
                Meets(s, init, decide, i, id, b) || (i == n && Meets(s, queue, decide, n, id, b))
      ensures Meets(s, init, decide, i, id, b) ==> init[i] == queue[i]
    {
      if i < n {
        InitialLanding(s, queue, decide, i);
      }
    }
    if r in t.store.refs {
      RefKeepsId(s, init, decide, cap, t.store, r);
    }
    if FirstMet(queue, n) {
      var id := queue[n].id;
      forall i, b
        ensures !Meets(s, init, decide, i, id, b)
      {
      }
      var landed := Landing(s, queue, decide, n).Some?;
      assert Meets(s, queue, decide, n, id, landed) && !Meets(s, queue, decide, n, id, !landed);
    } else {
      assert forall id, b :: !Meets(s, queue, decide, n, id, b);
    }
    hide FirstMet, Meets;
  }

  lemma RefKeepsId(s: Store, queue: seq<PendingRef>, decide: Decision, cap: int, t: Store, r: RefKey)
    requires RefAfter(s, queue, decide, cap, t, r) && r in t.refs
    ensures r in s.refs && t.refs[r].id == s.refs[r].id
  {
    assert forall i, id, b :: Meets(s, queue, decide, i, id, b) ==> 0 <= i < |queue|;
    hide Meets;
    if i :| Meets(s, queue, decide, i, s.refs[r].id, false) {
      assert t.refs[r] == Failed(s.refs[r], queue[i], cap);
    }
  }

  lemma {:induction false} PassLeaves(s: Store, queue: seq<PendingRef>, decide: Decision, cap: int,
                        k: EdgeKey, r: RefKey)
    requires forall r :: r in queue ==> EdgeKind(r) != IMPORTS
    ensures var t := InOrder(s, queue, decide, cap).store;
            && t == s.(edges := t.edges, refs := t.refs)
            && EdgeAfter(s, queue, decide, t, k) && RefAfter(s, queue, decide, cap, t, r)
  {
    hide SightOf, EdgeKind, EdgeAfter, RefAfter, LastStep;
    if queue != [] {
      var init := queue[..|queue| - 1];
      assert forall r :: r in init ==> r in queue;
      PassLeaves(s, init, decide, cap, k, r);
      hide InOrder;
      StepIs(s, queue, decide, cap);
      EdgeStep(s, queue, decide, cap, InOrder(s, init, decide, cap), InOrder(s, queue, decide, cap), k);
      RefStep(s, queue, decide, cap, InOrder(s, init, decide, cap), InOrder(s, queue, decide, cap), r);
      StepKeepsRest(s, queue, decide, cap, InOrder(s, init, decide, cap), InOrder(s, queue, decide, cap));
    } else {
      NothingMet(s, queue, decide, cap, k, r);
    }
  }

  // The tables after a pass: the edges that were there and those that landed,
  // each as its last writer left it; of the refs those not resolved, each
  // attempted one with one more attempt.
  lemma PassWrites(s: Store, queue: seq<PendingRef>, decide: Decision, cap: int)
    requires forall r :: r in queue ==> EdgeKind(r) != IMPORTS
    ensures var t := InOrder(s, queue, decide, cap).store;
            && t == s.(edges := t.edges, refs := t.refs)
            && (forall k :: EdgeAfter(s, queue, decide, t, k)) && (forall r :: RefAfter(s, queue, decide, cap, t, r))
  {
    hide EdgeKind, InOrder, EdgeAfter, RefAfter;
    var t := InOrder(s, queue, decide, cap).store;
    forall k
      ensures EdgeAfter(s, queue, decide, t, k)
    {
      PassLeaves(s, queue, decide, cap, k, RefKey(0, "", "", 0, 0));
    }
    PassLeaves(s, queue, decide, cap, EdgeKey(0, 0, "", 0, 0), RefKey(0, "", "", 0, 0));
    forall r
      ensures RefAfter(s, queue, decide, cap, t, r)
    {
      PassLeaves(s, queue, decide, cap, EdgeKey(0, 0, "", 0, 0), r);
    }
  }

  // The refs that were resolved, and those whose row reached the cap, by their
  // number in the queue.
  ghost function Landed(s: Store, queue: seq<PendingRef>, decide: Decision): set<int> {
    set i | 0 <= i < |queue| && Landing(s, queue, decide, i).Some?
  }

  ghost function GivenUp(s: Store, queue: seq<PendingRef>, decide: Decision, cap: int): set<int> {
    set i | 0 <= i < |queue| && FirstMet(queue, i) && Landing(s, queue, decide, i) == None
          && UsesUp(s, queue[i].id, cap)
  }

  lemma UsesUpStill(s: Store, queue: seq<PendingRef>, decide: Decision, cap: int, t: Store, id: int)
    requires forall r :: RefAfter(s, queue, decide, cap, t, r)
    requires forall i :: 0 <= i < |queue| ==> queue[i].id != id
    ensures UsesUp(t, id, cap) <==> UsesUp(s, id, cap)
  {
    hide Landing;
    assert forall i, b :: !Meets(s, queue, decide, i, id, b);
    forall r
      ensures r in t.refs && t.refs[r].id == id <==> r in s.refs && s.refs[r].id == id
      ensures r in t.refs && t.refs[r].id == id ==> t.refs[r] == s.refs[r]
    {
      assert RefAfter(s, queue, decide, cap, t, r);
      if r in t.refs {
        RefKeepsId(s, queue, decide, cap, t, r);
      }
    }
  }

  lemma CountsMore(s: Store, queue: seq<PendingRef>, decide: Decision, cap: int)
    requires queue != []
    ensures var n := |queue| - 1;
            && |Landed(s, queue, decide)| == |Landed(s, queue[..n], decide)|
                 + (if Landing(s, queue, decide, n).Some? then 1 else 0)
            && |GivenUp(s, queue, decide, cap)| == |GivenUp(s, queue[..n], decide, cap)|
                 + (if FirstMet(queue, n) && Landing(s, queue, decide, n) == None && UsesUp(s, queue[n].id, cap)
                    then 1 else 0)
  {
    var n := |queue| - 1;
    hide Landing, FirstMet, UsesUp;
    forall i | 0 <= i < n
      ensures Landing(s, queue[..n], decide, i) == Landing(s, queue, decide, i)
      ensures FirstMet(queue[..n], i) <==> FirstMet(queue, i)
    {
      InitialLanding(s, queue, decide, i);
    }
    assert Landed(s, queue, decide) == if Landing(s, queue, decide, n).Some? then Landed(s, queue[..n], decide) + {n}
                                       else Landed(s, queue[..n], decide);
    assert GivenUp(s, queue, decide, cap) ==
      if FirstMet(queue, n) && Landing(s, queue, decide, n) == None && UsesUp(s, queue[n].id, cap)
      then GivenUp(s, queue[..n], decide, cap) + {n} else GivenUp(s, queue[..n], decide, cap);
  }

  lemma {:induction false} PassCounts(s: Store, queue: seq<PendingRef>, decide: Decision, cap: int)
    requires forall r :: r in queue ==> EdgeKind(r) != IMPORTS
    ensures var t := InOrder(s, queue, decide, cap);
            t.resolved == |Landed(s, queue, decide)| && t.abandoned == |GivenUp(s, queue, decide, cap)|
  {
    hide EdgeKind, Landed, GivenUp, UsesUp;
    if queue == [] {
      assert Landed(s, queue, decide) == {} by { NothingLanded(s, queue, decide, cap); }
      NothingLanded(s, queue, decide, cap);
    } else {
      var n := |queue| - 1;
      assert forall r :: r in queue[..n] ==> r in queue;
      PassCounts(s, queue[..n], decide, cap);
      hide InOrder;
      StepIs(s, queue, decide, cap);
      CountsMore(s, queue, decide, cap);
      StepCounts(s, queue, decide, cap);
    }
  }

  lemma NothingLanded(s: Store, queue: seq<PendingRef>, decide: Decision, cap: int)
    requires queue == []
    ensures Landed(s, queue, decide) == {} && GivenUp(s, queue, decide, cap) == {}
  {
  }

  // Where the last ref is met first, its row is still as it was.
  lemma StepCounts(s: Store, queue: seq<PendingRef>, decide: Decision, cap: int)
    requires queue != [] && forall r :: r in queue ==> EdgeKind(r) != IMPORTS
    ensures var n := |queue| - 1;
            FirstMet(queue, n) ==>
              (UsesUp(InOrder(s, queue[..n], decide, cap).store, queue[n].id, cap) <==> UsesUp(s, queue[n].id, cap))
    ensures !FirstMet(queue, |queue| - 1) ==> Landing(s, queue, decide, |queue| - 1) == None
  {
    hide EdgeKind, InOrder, UsesUp, RefAfter, EdgeAfter;
    var n := |queue| - 1;
    assert forall r :: r in queue[..n] ==> r in queue;
    var t := InOrder(s, queue[..n], decide, cap).store;
    forall r
      ensures RefAfter(s, queue[..n], decide, cap, t, r)
    {
      PassLeaves(s, queue[..n], decide, cap, EdgeKey(0, 0, "", 0, 0), r);
    }
    if FirstMet(queue, n) {
      UsesUpStill(s, queue[..n], decide, cap, t, queue[n].id);
    }
  }

  lemma StepKeepsRest(s: Store, queue: seq<PendingRef>, decide: Decision, cap: int, t: Tally, u: Tally)
    requires queue != [] && LastStep(s, queue, decide, cap, t, u)
    ensures u.store == t.store.(edges := u.store.edges, refs := u.store.refs)
  {
  }

  lemma NothingMet(s: Store, queue: seq<PendingRef>, decide: Decision, cap: int, k: EdgeKey, r: RefKey)
    requires queue == []
    ensures EdgeAfter(s, queue, decide, s, k) && RefAfter(s, queue, decide, cap, s, r)
  {
  }

  // ---- Writes of different refs commute ------------------------------------------

  lemma MarkThenApply(s: Store, r: PendingRef, p: Plan, cap: int)
    requires r.id != p.ref.id
    ensures ApplyOne(s, p).Some? <==> ApplyOne(MarkFailed(s, r.id, TailOf(r), cap), p).Some?
    ensures ApplyOne(s, p).Some? ==>
              && ApplyOne(MarkFailed(s, r.id, TailOf(r), cap), p).value
                 == MarkFailed(ApplyOne(s, p).value, r.id, TailOf(r), cap)
              && Abandons(ApplyOne(s, p).value, r.id, cap) == Abandons(s, r.id, cap)
  {
    hide TailOf;
    if ApplyOne(s, p).Some? {
      var tail := TailOf(r);
      var t := UpsertEdge(s, PlanEdge(p)).value;
      assert DeleteRef(MarkFailed(t, r.id, tail, cap), p.ref.id).refs
             == MarkFailed(DeleteRef(t, p.ref.id), r.id, tail, cap).refs;
      if Abandons(s, r.id, cap) {
        var k :| k in s.refs && s.refs[k].id == r.id && s.refs[k].attempts + 1 >= cap;
        assert k in DeleteRef(t, p.ref.id).refs;
      }
    }
  }

  lemma MarksCommute(s: Store, a: PendingRef, b: PendingRef, cap: int)
    requires a.id != b.id
    ensures MarkFailed(MarkFailed(s, a.id, TailOf(a), cap), b.id, TailOf(b), cap)
         == MarkFailed(MarkFailed(s, b.id, TailOf(b), cap), a.id, TailOf(a), cap)
    ensures Abandons(MarkFailed(s, a.id, TailOf(a), cap), b.id, cap) == Abandons(s, b.id, cap)
  {
    hide TailOf;
    var t := MarkFailed(s, a.id, TailOf(a), cap);
    if Abandons(s, b.id, cap) {
      var k :| k in s.refs && s.refs[k].id == b.id && s.refs[k].attempts + 1 >= cap;
      assert k in t.refs && t.refs[k] == s.refs[k];
    }
    if Abandons(t, b.id, cap) {
      var k :| k in t.refs && t.refs[k].id == b.id && t.refs[k].attempts + 1 >= cap;
      assert k in s.refs && t.refs[k] == s.refs[k];
    }
  }

  ghost predicate Without(plans: seq<Plan>, id: int) {
    forall p :: p in plans ==> p.ref.id != id
  }

  lemma WithoutPrefix(plans: seq<Plan>, id: int)
    requires Without(plans, id) && plans != []
    ensures Without(plans[..|plans| - 1], id) && plans[|plans| - 1].ref.id != id
  {
    assert plans[|plans| - 1] in plans;
    assert forall p :: p in plans[..|plans| - 1] ==> p in plans;
  }

  lemma {:induction false} MarkThenApplyEach(s: Store, r: PendingRef, plans: seq<Plan>, cap: int)
    requires Without(plans, r.id)
    ensures ApplyEach(MarkFailed(s, r.id, TailOf(r), cap), plans)
         == (MarkFailed(ApplyEach(s, plans).0, r.id, TailOf(r), cap), ApplyEach(s, plans).1)
    ensures Abandons(ApplyEach(s, plans).0, r.id, cap) == Abandons(s, r.id, cap)
  {
    hide MarkFailed, Abandons, ApplyOne, TailOf;
    if plans != [] {
      WithoutPrefix(plans, r.id);
      MarkThenApplyEach(s, r, plans[..|plans| - 1], cap);
      MarkThenApply(ApplyEach(s, plans[..|plans| - 1]).0, r, plans[|plans| - 1], cap);
    }
  }

  function MissAll(t: Tally, plans: seq<Plan>, cap: int): Tally {
    if plans == [] then t else Miss(MissAll(t, plans[..|plans| - 1], cap), plans[|plans| - 1].ref, cap)
  }

  lemma {:induction false} MissThenMissAll(t: Tally, r: PendingRef, plans: seq<Plan>, cap: int)
    requires Without(plans, r.id)
    ensures MissAll(Miss(t, r, cap), plans, cap) == Miss(MissAll(t, plans, cap), r, cap)
  {
    hide MarkFailed, Abandons, TailOf;
    if plans != [] {
      var init, last := plans[..|plans| - 1], plans[|plans| - 1];
      WithoutPrefix(plans, r.id);
      MissThenMissAll(t, r, init, cap);
      MarksCommute(MissAll(t, init, cap).store, r, last.ref, cap);
      MarksCommute(MissAll(t, init, cap).store, last.ref, r, cap);
    }
  }

  lemma {:induction false} ApplyThenMissAll(t: Tally, p: Plan, plans: seq<Plan>, cap: int)
    requires Without(plans, p.ref.id)
    ensures ApplyOne(t.store, p).Some? <==> ApplyOne(MissAll(t, plans, cap).store, p).Some?
    ensures ApplyOne(t.store, p).Some? ==>
              var u := t.(store := ApplyOne(t.store, p).value, resolved := t.resolved + 1);
              var v := MissAll(t, plans, cap);
              MissAll(u, plans, cap) == v.(store := ApplyOne(v.store, p).value, resolved := v.resolved + 1)
  {
    hide MarkFailed, Abandons, TailOf, ApplyOne;
    if plans != [] {
      var init, last := plans[..|plans| - 1], plans[|plans| - 1];
      WithoutPrefix(plans, p.ref.id);
      ApplyThenMissAll(t, p, init, cap);
      MarkThenApply(MissAll(t, init, cap).store, last.ref, p, cap);
    }
  }

  // ---- The batching writer ---------------------------------------------------------

  datatype Progress = Progress(store: Store, resolved: int, failed: seq<Plan>)

  function Settle(p: Progress, batch: seq<Plan>): Progress {
    var (s, refused) := ApplyEach(p.store, batch);
    Progress(s, p.resolved + |batch| - |refused|, p.failed + refused)
  }

  function Entries(plans: seq<Plan>): seq<(Edge, int)> {
    seq(|plans|, i requires 0 <= i < |plans| => (PlanEdge(plans[i]), plans[i].ref.id))
  }

  // A transaction that commits is the per-ref writes with none refused.
  lemma {:induction false} CommittedBatchIsEach(s: Store, plans: seq<Plan>)
    requires ApplyAll(s, Entries(plans)).Some?
    ensures ApplyEach(s, plans) == (ApplyAll(s, Entries(plans)).value, [])
  {
    if plans != [] {
      var init := plans[..|plans| - 1];
      assert Entries(plans)[..|plans| - 1] == Entries(init);
      CommittedBatchIsEach(s, init);
    }
  }

  class Writer {
    const database: DB
    const batchSize: nat
    var batch: seq<Plan>
    var resolved: int
    var failed: seq<Plan>

    // What is left once the buffered plans are written one at a time.
    function Settled(): Progress
      reads this, database
    {
      Settle(Progress(database.store, resolved, failed), batch)
    }

    constructor (database: DB, batchSize: nat)
      ensures this.database == database
      ensures batch == [] && resolved == 0 && failed == []
    {
      this.database := database;
      this.batchSize := batchSize;
      batch, resolved, failed := [], 0, [];
    }

    // Buffering a plan amounts to applying it alone, whether or not it fills
    // the batch and however the batch's transaction ends.
    method Add(p: Plan)
      requires Valid(database.store)
      modifies this, database
      ensures Valid(database.store)
      ensures Settled() == Settle(old(Settled()), [p])
      ensures |old(batch)| + 1 >= batchSize ==> batch == []
      ensures |old(batch)| + 1 < batchSize ==> batch == old(batch) + [p] && database.store == old(database.store)
      ensures batch == [] ==> database.store == Settled().store
      ensures forall q :: q in failed ==> q in old(failed) || q in old(batch) || q == p
    {
      SettleOneMore(Progress(database.store, resolved, failed), batch, p);
      batch := batch + [p];
      if |batch| >= batchSize {
        Flush();
      }
    }

    method Flush()
      requires Valid(database.store)
      modifies this, database
      ensures Valid(database.store)
      ensures batch == [] && Settled() == old(Settled())
      ensures Settled() == Progress(database.store, resolved, failed)
      ensures forall q :: q in failed ==> q in old(failed) || q in old(batch)
    {
      hide Valid, ApplyAll, ApplyOne;
      if |batch| == 0 {
        return;
      }
      var outcome := database.ApplyResolvedRefs(Entries(batch));
      if outcome == Committed {
        CommittedBatchIsEach(old(database.store), batch);
        resolved := resolved + |batch|;
      } else {
        for i := 0 to |batch|
          invariant Valid(database.store) && batch == old(batch)
          invariant Progress(database.store, resolved, failed)
                    == Settle(old(Progress(database.store, resolved, failed)), batch[..i])
          invariant forall q :: q in failed ==> q in old(failed) || q in old(batch)
        {
          SettleOneMore(old(Progress(database.store, resolved, failed)), batch[..i], batch[i]);
          assert batch[..i + 1] == batch[..i] + [batch[i]];
          var ok := ApplyPlan(batch[i]);
          if ok {
            resolved := resolved + 1;
          } else {
            failed := failed + [batch[i]];
          }
        }
        assert batch[..|batch|] == batch;
      }
      batch := [];
    }

    method ApplyPlan(p: Plan) returns (ok: bool)
      requires Valid(database.store)
      modifies database
      ensures Valid(database.store)
      ensures ok <==> ApplyOne(old(database.store), p).Some?
      ensures database.store == if ok then ApplyOne(old(database.store), p).value else old(database.store)
    {
      ok := database.UpsertOneEdge(PlanEdge(p));
      if ok {
        database.DeleteUnresolvedRef(p.ref.id);
      }
    }
  }

  lemma SettleOneMore(start: Progress, batch: seq<Plan>, p: Plan)
    ensures Settle(start, batch + [p]) == Settle(Settle(start, batch), [p])
    ensures var q := Settle(start, batch);
            Settle(start, batch + [p]) ==
              match ApplyOne(q.store, p)
              case None => q.(failed := q.failed + [p])
              case Some(t) => q.(store := t, resolved := q.resolved + 1)
  {
    hide ApplyOne;
    assert (batch + [p])[..|batch|] == batch;
    var s := ApplyEach(start.store, batch).0;
    var one := [p];
    assert one[..|one| - 1] == [] && one[|one| - 1] == p && [] + one == one;
    assert ApplyEach(s, one[..|one| - 1]) == (s, []);
    assert ApplyEach(s, one) == match ApplyOne(s, p) { case None => (s, one) case Some(u) => (u, []) };
  }

  // ---- A whole pass ------------------------------------------------------------------

  // The tally a pass ends with from here: flush, then mark what was refused.
  function Finish(p: Progress, failed: int, abandoned: int, cap: int): Tally {
    MissAll(Tally(p.store, p.resolved, failed, abandoned), p.failed, cap)
  }

  // Marking a ref now instead of at its place in the order changes nothing.
  lemma MarkEarly(p: Progress, batch: seq<Plan>, failed: int, abandoned: int, r: PendingRef, cap: int)
    requires Without(batch, r.id) && Without(p.failed, r.id)
    ensures var marked := Miss(Tally(p.store, p.resolved, failed, abandoned), r, cap);
            Finish(Settle(p.(store := marked.store), batch), marked.failed, marked.abandoned, cap)
            == Miss(Finish(Settle(p, batch), failed, abandoned, cap), r, cap)
  {
    hide MarkFailed, Abandons, TailOf, ApplyOne;
    MarkThenApplyEach(p.store, r, batch, cap);
    var q := Settle(p, batch);
    assert Without(q.failed, r.id);
    MissThenMissAll(Tally(q.store, q.resolved, failed, abandoned), r, q.failed, cap);
  }

  // Marking a refused ref after the pass instead of at its place changes nothing.
  lemma MarkLate(p: Progress, failed: int, abandoned: int, r: PendingRef, m: Match, cap: int)
    requires Without(p.failed, r.id)
    ensures Finish(Settle(p, [Plan(r, m)]), failed, abandoned, cap)
         == Attempt(Finish(p, failed, abandoned, cap), r, Some(m), cap)
  {
    hide MarkFailed, Abandons, TailOf, ApplyOne;
    var plan := Plan(r, m);
    SettleOneMore(p, [], plan);
    assert [] + [plan] == [plan];
    assert p.failed + [] == p.failed;
    ApplyThenMissAll(Tally(p.store, p.resolved, failed, abandoned), plan, p.failed, cap);
    assert (p.failed + [plan])[..|p.failed|] == p.failed;
  }

  // resolver.go, the loop of ResolveForFiles over its queue. The queue that
  // ResolveAll builds has no ref twice, and its loop is this one.
  // Each ref is decided on the store as it is then, with plans still buffered.
  method ResolveQueue(database: DB, queue: seq<PendingRef>, decide: Decision, batchSize: nat, cap: int)
    returns (resolved: int, failed: int, abandoned: int)
    requires Valid(database.store)
    requires forall r :: r in queue ==> EdgeKind(r) != IMPORTS
    modifies database
    ensures Valid(database.store)
    ensures Tally(database.store, resolved, failed, abandoned) == InOrder(old(database.store), queue, decide, cap)
    ensures resolved + failed == |Ids(queue)| && resolved == |Landed(old(database.store), queue, decide)|
    ensures abandoned == |GivenUp(old(database.store), queue, decide, cap)|
    ensures forall k :: EdgeAfter(old(database.store), queue, decide, database.store, k)
    ensures forall r :: RefAfter(old(database.store), queue, decide, cap, database.store, r)
    ensures database.store == old(database.store).(edges := database.store.edges, refs := database.store.refs)
  {
    hide Landed, GivenUp, EdgeAfter, RefAfter;
    hide Valid, Finish, Settle, MissAll, MarkFailed, Abandons, TailOf, SightOf, EdgeKind;
    resolved, failed, abandoned := 0, 0, 0;
    var seen := {};
    var w := new Writer(database, batchSize);
    NothingToFinish(database.store, cap);
    assert queue[..0] == [];
    for i := 0 to |queue|
      invariant w.database == database && fresh(w) && Valid(database.store)
      invariant seen == set j | 0 <= j < i :: queue[j].id
      invariant forall p :: p in w.batch || p in w.failed ==> p.ref.id in seen
      invariant NoImports(w.batch) && SightOf(database.store) == SightOf(old(database.store))
      invariant Finish(w.Settled(), failed, abandoned, cap) == InOrder(old(database.store), queue[..i], decide, cap)
    {
      assert queue[..i + 1][..i] == queue[..i];
      var r := queue[i];
      PassKeepsSight(old(database.store), queue[..i], decide, cap);
      assert Seen(queue[..i], r.id) <==> r.id in seen;
      if r.id !in seen {
        seen := seen + {r.id};
        match decide(SightOf(database.store), r) {
          case None =>
            MarkEarly(Progress(database.store, w.resolved, w.failed), w.batch, failed, abandoned, r, cap);
            MarkKeepsSight(database.store, r.id, TailOf(r), cap);
            var gone := database.MarkUnresolvedFailed(r.id, TailOf(r), cap);
            failed := failed + 1;
            abandoned := if gone then abandoned + 1 else abandoned;
          case Some(m) =>
            SettledFailed(Progress(database.store, w.resolved, w.failed), w.batch);
            MarkLate(w.Settled(), failed, abandoned, r, m, cap);
            BufferedKeepsSight(Progress(database.store, w.resolved, w.failed), w.batch, Plan(r, m));
            w.Add(Plan(r, m));
        }
      }
    }
    assert queue[..|queue|] == queue;
    w.Flush();
    resolved := w.resolved;
    var refused := w.failed;
    ghost var start := Tally(database.store, resolved, failed, abandoned);
    assert Finish(Progress(database.store, resolved, refused), failed, abandoned, cap)
           == MissAll(start, refused, cap) by {
      FinishIs(Progress(database.store, resolved, refused), failed, abandoned, cap);
    }
    MissAllOfNone(start, cap);
    for i := 0 to |refused|
      invariant Valid(database.store)
      invariant Tally(database.store, resolved, failed, abandoned) == MissAll(start, refused[..i], cap)
    {
      MissAllOneMore(start, refused[..i], refused[i], cap);
      assert refused[..i + 1] == refused[..i] + [refused[i]];
      var gone := database.MarkUnresolvedFailed(refused[i].ref.id, TailOf(refused[i].ref), cap);
      failed := failed + 1;
      abandoned := if gone then abandoned + 1 else abandoned;
    }
    assert refused[..|refused|] == refused;
    NoRefIsUncounted(old(database.store), queue, decide, cap);
    PassCounts(old(database.store), queue, decide, cap);
    PassWrites(old(database.store), queue, decide, cap);
  }

  lemma BufferedKeepsSight(p: Progress, batch: seq<Plan>, plan: Plan)
    requires NoImports(batch) && EdgeKind(plan.ref) != IMPORTS
    ensures SightOf(Settle(Settle(p, batch), [plan]).store) == SightOf(p.store)
    ensures NoImports(batch + [plan]) && NoImports([])
  {
    hide SightOf, ApplyOne;
    ApplyEachKeepsSight(p.store, batch);
    ApplyEachKeepsSight(Settle(p, batch).store, [plan]);
  }

  lemma FinishIs(p: Progress, failed: int, abandoned: int, cap: int)
    ensures Finish(p, failed, abandoned, cap) == MissAll(Tally(p.store, p.resolved, failed, abandoned), p.failed, cap)
  {
  }

  lemma MissAllOfNone(t: Tally, cap: int)
    ensures MissAll(t, [], cap) == t
  {
  }

  lemma MissAllOneMore(t: Tally, plans: seq<Plan>, p: Plan, cap: int)
    ensures MissAll(t, plans + [p], cap) == Miss(MissAll(t, plans, cap), p.ref, cap)
  {
    assert (plans + [p])[..|plans|] == plans;
  }

  lemma NothingToFinish(s: Store, cap: int)
    ensures Finish(Settle(Progress(s, 0, []), []), 0, 0, cap) == Tally(s, 0, 0, 0)
  {
  }

  // The plans a settled writer would report are among those it holds.
  lemma SettledFailed(p: Progress, batch: seq<Plan>)
    ensures forall q :: q in Settle(p, batch).failed ==> q in p.failed || q in batch
  {
  }
}
