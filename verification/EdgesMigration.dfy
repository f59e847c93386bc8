/** Widening the unique key of the edges table (migrate.go): the rebuild, and
    the recovery from one that an older build left half done. */
module EdgesMigration {
  import opened Wrappers

  datatype Row = Row(source: Option<int>, target: Option<int>, kind: string, line: Option<int>, col: Option<int>,
                     file: string, provenance: string, metadata: string)

  // `key` lists the columns of the unique index.
  datatype Table = Table(key: seq<string>, rows: map<int, Row>)

  // What a crash leaves behind.
  datatype Disk = Disk(edges: Option<Table>, edgesNew: Option<Table>)

  const OLD_KEY := ["source_id", "target_id", "kind"]
  const NEW_KEY := ["source_id", "target_id", "kind", "line", "col"]

  predicate IsNewEdgeKey(cols: seq<string>) {
    |cols| == 5 && forall i :: 0 <= i < |cols| ==> cols[i] in NEW_KEY
  }

  // In any order: of distinct columns, the five of the new key and no others.
  lemma NewKeyInAnyOrder(cols: seq<string>)
    requires forall i, j :: 0 <= i < j < |cols| ==> cols[i] != cols[j]
    ensures IsNewEdgeKey(cols) <==> (set c | c in cols) == {"source_id", "target_id", "kind", "line", "col"}
  {
    var want := {"source_id", "target_id", "kind", "line", "col"};
    var got := set c | c in cols;
    SizeOfDistinct(cols);
    FiveColumns();
    if IsNewEdgeKey(cols) {
      assert got <= want by {
        forall c | c in got
          ensures c in want
        {
          var i :| 0 <= i < |cols| && cols[i] == c;
        }
      }
      SameSizeSubset(got, want);
    }
    if got == want {
      forall i | 0 <= i < |cols|
        ensures cols[i] in NEW_KEY
      {
        assert cols[i] in got;
      }
    }
  }

  lemma FiveColumns()
    ensures |{"source_id", "target_id", "kind", "line", "col"}| == 5
  {
    assert "source_id"[0] != "target_id"[0] && "kind"[0] != "line"[0] && "line"[0] != "col"[0];
    assert |"source_id"| == 9 && |"target_id"| == 9 && |"kind"| == 4 && |"line"| == 4 && |"col"| == 3;
  }

  lemma {:induction false} SizeOfDistinct(cols: seq<string>)
    requires forall i, j :: 0 <= i < j < |cols| ==> cols[i] != cols[j]
    ensures |set c | c in cols| == |cols|
  {
    if cols == [] {
      assert (set c | c in cols) == {};
    } else {
      var n := |cols| - 1;
      SizeOfDistinct(cols[..n]);
      assert (set c | c in cols) == (set c | c in cols[..n]) + {cols[n]};
      assert cols[n] !in cols[..n];
    }
  }

  lemma SameSizeSubset(a: set<string>, b: set<string>)
    requires a <= b && |a| == |b|
    ensures a == b
  {
    assert b == a + (b - a);
    assert |b - a| == 0;
  }

  // COALESCE(line, 0), COALESCE(col, 0)
  function Filled(r: Row): Row {
    r.(line := if r.line.Some? then r.line else Some(0), col := if r.col.Some? then r.col else Some(0))
  }

  function FilledAll(rows: map<int, Row>): map<int, Row> {
    map id | id in rows :: Filled(rows[id])
  }

  // Every row keeps its id, its ends, its kind and its other columns; a line or
  // a column that was there is kept, a missing one is 0.
  lemma FilledKeeps(rows: map<int, Row>)
    ensures FilledAll(rows).Keys == rows.Keys
    ensures forall id :: id in rows ==>
              var r, f := rows[id], FilledAll(rows)[id];
              && f.source == r.source && f.target == r.target && f.kind == r.kind
              && f.file == r.file && f.provenance == r.provenance && f.metadata == r.metadata
              && f.line.Some? && f.col.Some?
              && (r.line.Some? ==> f.line == r.line) && (r.col.Some? ==> f.col == r.col)
              && (r.line == None ==> f.line.value == 0) && (r.col == None ==> f.col.value == 0)
  {
  }

  // UNIQUE(source_id, target_id, kind): a NULL is unlike any other value.
  ghost predicate UniqueByEndpoints(rows: map<int, Row>) {
    forall i, j :: i in rows && j in rows && SameEndpoints(rows[i], rows[j]) ==> i == j
  }

  predicate SameEndpoints(a: Row, b: Row) {
    a.source.Some? && a.source == b.source && a.target.Some? && a.target == b.target && a.kind == b.kind
  }

  predicate SameSite(a: Row, b: Row) {
    SameEndpoints(a, b) && a.line.Some? && a.line == b.line && a.col.Some? && a.col == b.col
  }

  predicate UniqueBySite(rows: map<int, Row>) {
    forall i, j :: i in rows && j in rows && SameSite(rows[i], rows[j]) ==> i == j
  }

  // Rows the old key kept apart the new key keeps apart, NULLs filled in.
  lemma OldKeyImpliesNewKey(rows: map<int, Row>)
    requires UniqueByEndpoints(rows)
    ensures UniqueBySite(FilledAll(rows))
  {
    forall i, j | i in rows && j in rows && SameSite(Filled(rows[i]), Filled(rows[j]))
      ensures i == j
    {
      assert SameEndpoints(rows[i], rows[j]);
    }
  }

  // The two keys spelled out, on rows whose ends are known.
  lemma KeysSpelledOut(rows: map<int, Row>)
    requires forall i :: i in rows ==> rows[i].source.Some? && rows[i].target.Some?
    ensures UniqueByEndpoints(rows) <==>
              forall i, j | i in rows && j in rows && i != j ::
                !(rows[i].source == rows[j].source && rows[i].target == rows[j].target && rows[i].kind == rows[j].kind)
    ensures UniqueBySite(FilledAll(rows)) <==>
              forall i, j | i in rows && j in rows && i != j ::
                !(&& rows[i].source == rows[j].source && rows[i].target == rows[j].target
                  && rows[i].kind == rows[j].kind
                  && FilledAll(rows)[i].line == FilledAll(rows)[j].line
                  && FilledAll(rows)[i].col == FilledAll(rows)[j].col)
  {
  }

  // ---- The states a crash can leave ---------------------------------------------------------

  // The migrated database: one edges table, the new key, the original rows.
  ghost predicate Migrated(d: Disk, original: map<int, Row>) {
    && d.edgesNew == None && d.edges.Some?
    && IsNewEdgeKey(d.edges.value.key) && d.edges.value.rows == FilledAll(original)
  }

  // The edges are all there: in edges, beside whatever copy was begun, or in
  // edges_new alone, under either key.
  ghost predicate Recoverable(d: Disk, original: map<int, Row>) {
    && UniqueByEndpoints(original)
    && (d.edges.Some? ==> Holds(d.edges.value, original))
    && (d.edges == None ==> d.edgesNew.Some? && Holds(d.edgesNew.value, original))
  }

  // Neither table is there yet.
  predicate Fresh(d: Disk) {
    d.edges == None && d.edgesNew == None
  }

  ghost predicate Holds(t: Table, original: map<int, Row>) {
    if IsNewEdgeKey(t.key) then t.rows == FilledAll(original) else t.rows == original
  }

  // The statements of the rebuild that older builds ran one by one.
  function OldRebuild(d: Disk, done: nat): Disk
    requires done <= 4 && d.edges.Some?
  {
    var copy := Table(NEW_KEY, FilledAll(d.edges.value.rows));
    match done
    case 0 => d
    case 1 => Disk(d.edges, Some(Table(NEW_KEY, map[])))
    case 2 => Disk(d.edges, Some(copy))
    case 3 => Disk(None, Some(copy))
    case _ => Disk(Some(copy), None)
  }

  lemma EveryCrashPointIsRecoverable(rows: map<int, Row>, done: nat)
    requires UniqueByEndpoints(rows) && done <= 4
    ensures Recoverable(OldRebuild(Disk(Some(Table(OLD_KEY, rows)), None), done), rows)
    ensures done == 4 ==> Migrated(OldRebuild(Disk(Some(Table(OLD_KEY, rows)), None), done), rows)
    ensures var d := OldRebuild(Disk(Some(Table(OLD_KEY, rows)), None), done);
            && (d.edges.Some? <==> done != 3) && (d.edgesNew.Some? <==> 1 <= done <= 3)
            && (done <= 2 ==> d.edges == Some(Table(OLD_KEY, rows)))
            && (done == 1 ==> d.edgesNew.value.rows == map[])
            && (1 < done <= 3 ==> d.edgesNew.value.rows.Keys == rows.Keys)
  {
  }

  // ---- The startup path ---------------------------------------------------------------------------

  // Stopped: a crash, or a statement that failed.
  datatype Outcome = Done | Stopped

  class Connection {
    var disk: Disk
    var foreignKeys: bool

    constructor (disk: Disk)
      ensures this.disk == disk && foreignKeys
    {
      this.disk, foreignKeys := disk, true;
    }

    // The process may die, or SQLite refuse, between any two statements.
    method Interrupted(mayStop: bool) returns (stop: bool)
      ensures stop ==> mayStop
    {
      stop := *;
      stop := stop && mayStop;
    }

    // Before schema.sql: the copy is dropped beside a live table and promoted
    // where it is the only one.
    method RecoverEdgesRebuild(mayStop: bool, ghost original: map<int, Row>) returns (outcome: Outcome)
      requires Recoverable(disk, original) || Fresh(disk)
      modifies this`disk
      ensures if Fresh(old(disk)) then disk == old(disk) else Recoverable(disk, original)
      ensures outcome == Done ==> disk.edgesNew == None && (disk.edges.Some? || Fresh(old(disk)))
      ensures !mayStop ==> outcome == Done
    {
      if disk.edgesNew == None {
        return Done;
      }
      var stop := Interrupted(mayStop);
      if stop {
        return Stopped;
      }
      if disk.edges.Some? {
        disk := Disk(disk.edges, None);
        return Done;
      }
      outcome := PromoteEdgesNew(mayStop, original);
    }

    // One transaction: the rename and its indexes, or nothing.
    method PromoteEdgesNew(mayStop: bool, ghost original: map<int, Row>) returns (outcome: Outcome)
      requires Recoverable(disk, original) && disk.edges == None
      modifies this`disk
      ensures Recoverable(disk, original)
      ensures outcome == Done ==> disk.edgesNew == None && disk.edges.Some?
      ensures outcome == Stopped ==> disk == old(disk)
      ensures !mayStop ==> outcome == Done
    {
      var tx := Renamed(disk);
      var stop := Interrupted(mayStop);
      if stop {
        return Stopped;
      }
      disk := tx;
      return Done;
    }

    // schema.sql: CREATE TABLE IF NOT EXISTS edges, with the new key.
    method ApplySchema(mayStop: bool) returns (outcome: Outcome)
      modifies this`disk
      ensures old(disk).edges.Some? || outcome == Stopped ==> disk == old(disk)
      ensures old(disk).edges == None && outcome == Done ==>
                disk == Disk(Some(Table(NEW_KEY, map[])), old(disk).edgesNew)
      ensures !mayStop ==> outcome == Done
    {
      var stop := Interrupted(mayStop);
      if stop {
        return Stopped;
      }
      if disk.edges == None {
        disk := Disk(Some(Table(NEW_KEY, map[])), disk.edgesNew);
      }
      return Done;
    }

    // ALTER TABLE edges_new RENAME TO edges, refused while edges is there.
    function Renamed(d: Disk): Disk
      requires d.edges == None && d.edgesNew.Some?
    {
      Disk(d.edgesNew, None)
    }

    // The transaction may drop and rename only while foreign keys are off.
    method RebuildEdgesUniqueKey(mayStop: bool, ghost original: map<int, Row>) returns (outcome: Outcome)
      requires Recoverable(disk, original) && disk.edges.Some? && foreignKeys
      modifies this
      ensures Recoverable(disk, original) && disk.edges.Some?
      ensures outcome == Done ==> Migrated(disk, original) && foreignKeys
      ensures !mayStop ==> outcome == Done
    {
      disk := Disk(disk.edges, None);
      var stop := Interrupted(mayStop);
      if stop {
        return Stopped;
      }
      var live := disk.edges.value;
      if IsNewEdgeKey(live.key) {
        return Done;
      }
      foreignKeys := false;
      var tx := Disk(disk.edges, Some(Table(NEW_KEY, map[])));
      stop := Interrupted(mayStop);
      OldKeyImpliesNewKey(original);
      var copied := FilledAll(live.rows);
      if !stop && !foreignKeys && UniqueBySite(copied) {
        tx := Disk(tx.edges, Some(Table(NEW_KEY, copied)));
        tx := Disk(None, tx.edgesNew);
        tx := Renamed(tx);
        stop := Interrupted(mayStop);
        if !stop {
          disk := tx;
          outcome := Done;
        } else {
          outcome := Stopped;
        }
      } else {
        outcome := Stopped;
      }
      stop := Interrupted(mayStop);
      if stop {
        return Stopped;
      }
      foreignKeys := true;
    }
  }

  // Opening the database: recover, apply the schema, rebuild. A database that
  // is not there yet comes out empty, under the new key.
  method Open(disk: Disk, mayStop: bool, ghost original: map<int, Row>) returns (outcome: Outcome, left: Disk)
    requires Recoverable(disk, original) || (Fresh(disk) && original == map[])
    ensures Recoverable(left, original) || (Fresh(disk) && left == disk)
    ensures outcome == Done ==> Migrated(left, original)
    ensures !mayStop ==> outcome == Done
  {
    var conn := new Connection(disk);
    outcome := conn.RecoverEdgesRebuild(mayStop, original);
    if outcome == Stopped {
      return Stopped, conn.disk;
    }
    outcome := conn.ApplySchema(mayStop);
    if outcome == Stopped {
      return Stopped, conn.disk;
    }
    outcome := conn.RebuildEdgesUniqueKey(mayStop, original);
    left := conn.disk;
  }

  // From any crash point of an old rebuild, through any number of openings
  // that crash themselves, the first one that gets through leaves one edges
  // table under the new key with exactly the original rows.
  method OpenAgainAndAgain(rows: map<int, Row>, crashPoint: nat, crashes: nat) returns (left: Disk)
    requires UniqueByEndpoints(rows) && crashPoint <= 4
    ensures Migrated(left, rows)
  {
    left := OldRebuild(Disk(Some(Table(OLD_KEY, rows)), None), crashPoint);
    EveryCrashPointIsRecoverable(rows, crashPoint);
    for i := 0 to crashes
      invariant Recoverable(left, rows)
    {
      var outcome;
      outcome, left := Open(left, true, rows);
    }
    var outcome;
    outcome, left := Open(left, false, rows);
  }

  // Without the recovery step the schema would put an empty table in the
  // place of the only copy: the order of the three steps matters.
  lemma SchemaFirstWouldOrphanTheEdges(rows: map<int, Row>, d: Disk)
    requires rows != map[] && UniqueByEndpoints(rows)
    requires d == OldRebuild(Disk(Some(Table(OLD_KEY, rows)), None), 3)
    ensures !Recoverable(Disk(Some(Table(NEW_KEY, map[])), d.edgesNew), rows)
  {
    assert (forall id :: id !in rows) ==> rows == map[];
    assert forall id :: id in rows ==> id in FilledAll(rows);
  }
}
