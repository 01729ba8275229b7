/** Running a synchronisation on the target server: staging in batches, the MERGE, the summary, rollback. */
module MergeExecutor {
  import opened Prelude
  import opened SqlServer
  import opened MergePlan
  import opened MergeTheory
  import opened MergeEffect
  import opened MergeOutcome

  datatype Stats = Stats(insertedCount: nat, updatedCount: nat, sourceRowCount: nat)

  datatype SyncError =
    | Server(error: SqlError)
    | Planning(planError: PlanError)
    | NoMatchingColumns

  // ---- Specification ----

  /** The values of the plan's columns, missing ones NULL. */
  function StageRow(names: seq<string>, r: Row): Row {
    map n | n in names :: Get(r, n)
  }

  function StageRows(plan: Plan, rows: seq<Row>): (stage: seq<Row>)
    ensures |stage| == |rows| && forall i :: 0 <= i < |rows| ==> stage[i] == StageRow(Names(plan.syncColumns), rows[i])
  {
    seq(|rows|, i requires 0 <= i < |rows| => StageRow(Names(plan.syncColumns), rows[i]))
  }

  /** The stage inherits NOT NULL from the target, except for an identity column, which is copied as an expression. */
  predicate StageAccepts(plan: Plan, r: Row) {
    forall i :: 0 <= i < |plan.syncColumns| && Get(r, plan.syncColumns[i].name).Null? ==>
      plan.syncColumns[i].isNullable || plan.syncColumns[i].isIdentity
  }

  predicate StageAcceptsAll(plan: Plan, rows: seq<Row>) {
    forall i :: 0 <= i < |rows| ==> StageAccepts(plan, rows[i])
  }

  /** Stage all rows, merge, and read the counts; no batch size appears in it. */
  function StagingMerge(env: Collations, plan: Plan, t: Table, rows: seq<Row>, defaults: nat -> Row)
    : Result<(Table, Stats), SyncError>
  {
    if !Distinct(Names(plan.syncColumns)) then Err(Server(DuplicateColumn))
    else if !StageAcceptsAll(plan, rows) then Err(Server(ConstraintViolated))
    else
      var r := RunMerge(env, BuildMerge(plan), t, StageRows(plan, rows), HasIdentityKey(plan), defaults);
      if r.Err? then Err(Server(r.error))
      else Ok((r.value.0, Stats(CountOf(r.value.1, Inserted), CountOf(r.value.1, Updated), |rows|)))
  }

  function SyncFromSource(env: Collations, t: Table, sourceColumns: seq<ColumnMetadata>, rows: seq<Row>,
      override: Option<Override>, defaults: nat -> Row)
    : Result<(Table, Stats), SyncError>
  {
    var plan := BuildPlan(sourceColumns, t.columns, override);
    if plan.Err? then Err(Planning(plan.error)) else StagingMerge(env, plan.value, t, rows, defaults)
  }

  /** The columns of the first payload row, or all columns when there is no row. */
  function ColumnsOfRows(targetColumns: seq<ColumnMetadata>, payloads: seq<Row>): (r: seq<ColumnMetadata>)
    ensures forall c :: c in r <==> c in targetColumns && (payloads == [] || c.name in payloads[0])
  {
    Filter((c: ColumnMetadata) => payloads == [] || c.name in payloads[0], targetColumns)
  }

  function SyncFromRows(env: Collations, t: Table, payloads: seq<Row>, override: Option<Override>, defaults: nat -> Row)
    : Result<(Table, Stats), SyncError>
  {
    if ColumnsOfRows(t.columns, payloads) == [] then Err(NoMatchingColumns)
    else SyncFromSource(env, t, ColumnsOfRows(t.columns, payloads), payloads, override, defaults)
  }

  // ---- The connection ----

  class TargetConnection {
    const env: Collations
    var table: Table
    var stage: seq<Row>
    var actions: seq<Action>
    var identityInsert: bool

    constructor (env: Collations, table: Table)
      ensures this.env == env && this.table == table && stage == [] && actions == [] && !identityInsert
    {
      this.env, this.table := env, table;
      stage, actions, identityInsert := [], [], false;
    }

    method CreateStage(plan: Plan) returns (ok: bool)
      modifies this`stage
      ensures stage == [] && ok == Distinct(Names(plan.syncColumns))
    {
      stage := [];
      ok := Distinct(Names(plan.syncColumns));
    }

    method InsertStage(plan: Plan, rows: seq<Row>) returns (ok: bool)
      modifies this`stage
      ensures ok == StageAcceptsAll(plan, rows)
      ensures stage == if ok then old(stage) + StageRows(plan, rows) else old(stage)
    {
      ok := StageAcceptsAll(plan, rows);
      if ok {
        stage := stage + StageRows(plan, rows);
      }
    }

    /** _run_merge_query: identity insert is on only for the statement and the summary. */
    method RunMergeQuery(plan: Plan, defaults: nat -> Row) returns (result: Result<(nat, nat), SqlError>)
      requires !identityInsert
      modifies this`table, this`actions, this`identityInsert
      ensures !identityInsert
      ensures var r := RunMerge(env, BuildMerge(plan), old(table), stage, HasIdentityKey(plan), defaults);
        if r.Err? then result == Err(r.error) && table == old(table)
        else result == Ok((CountOf(r.value.1, Inserted), CountOf(r.value.1, Updated))) && table == r.value.0
    {
      actions := [];
      if HasIdentityKey(plan) {
        identityInsert := true;
      }
      var merged := RunMerge(env, BuildMerge(plan), table, stage, identityInsert, defaults);
      if merged.Ok? {
        table, actions := merged.value.0, merged.value.1;
        var inserted, updated := SumOf(actions, Inserted), SumOf(actions, Updated);
        result := Ok((if inserted.None? then 0 else inserted.value, if updated.None? then 0 else updated.value));
      } else {
        result := Err(merged.error);
      }
      if HasIdentityKey(plan) {
        identityInsert := false;
      }
    }

    /** The loop over the batches of the source cursor, until it gives none. */
    method StageBatches(plan: Plan, rows: seq<Row>, batchSize: nat) returns (ok: bool, sourceRowCount: nat)
      requires batchSize > 0 && stage == []
      modifies this`stage
      ensures ok == StageAcceptsAll(plan, rows)
      ensures ok ==> stage == StageRows(plan, rows) && sourceRowCount == |rows|
    {
      NothingStaged(plan, rows);
      hide StageAcceptsAll;
      ok, sourceRowCount := true, 0;
      while true
        invariant ok && sourceRowCount <= |rows| && stage == StageRows(plan, rows[..sourceRowCount])
        invariant StageAcceptsAll(plan, rows[..sourceRowCount])
        decreases |rows| - sourceRowCount
      {
        var end := if sourceRowCount + batchSize <= |rows| then sourceRowCount + batchSize else |rows|;
        var batch := rows[sourceRowCount..end];
        if batch == [] {
          break;
        }
        BatchStaged(plan, rows, sourceRowCount, end);
        sourceRowCount := end;
        ok := InsertStage(plan, batch);
        if !ok {
          return;
        }
      }
      assert rows[..|rows|] == rows;
    }

    /** _execute_staging_merge: rows arrive in batches of the configured size until none is left. */
    method ExecuteStagingMerge(plan: Plan, rows: seq<Row>, batchSize: nat, defaults: nat -> Row)
      returns (result: Result<Stats, SyncError>)
      requires batchSize > 0 && !identityInsert
      modifies this
      ensures !identityInsert
      ensures var spec := StagingMerge(env, plan, old(table), rows, defaults);
        if spec.Err? then result == Err(spec.error) && table == old(table)
        else result == Ok(spec.value.1) && table == spec.value.0
    {
      hide RunMerge;
      hide BuildMerge;
      hide StageAcceptsAll;
      hide HasIdentityKey;
      var ok := CreateStage(plan);
      if !ok {
        return Err(Server(DuplicateColumn));
      }
      var sourceRowCount;
      ok, sourceRowCount := StageBatches(plan, rows, batchSize);
      if !ok {
        return Err(Server(ConstraintViolated));
      }
      var counts := RunMergeQuery(plan, defaults);
      if counts.Err? {
        return Err(Server(counts.error));
      }
      result := Ok(Stats(counts.value.0, counts.value.1, sourceRowCount));
    }

    /** execute, without a linked server. */
    method Execute(sourceColumns: seq<ColumnMetadata>, rows: seq<Row>, override: Option<Override>, batchSize: nat,
        defaults: nat -> Row)
      returns (result: Result<Stats, SyncError>)
      requires batchSize > 0 && !identityInsert
      modifies this
      ensures !identityInsert
      ensures var spec := SyncFromSource(env, old(table), sourceColumns, rows, override, defaults);
        if spec.Err? then result == Err(spec.error) && table == old(table)
        else result == Ok(spec.value.1) && table == spec.value.0
    {
      var plan := BuildPlan(sourceColumns, table.columns, override);
      if plan.Err? {
        return Err(Planning(plan.error));
      }
      result := ExecuteStagingMerge(plan.value, rows, batchSize, defaults);
    }

    /** execute_from_rows: the payload rows are staged in one statement, if there are any. */
    method ExecuteFromRows(payloads: seq<Row>, override: Option<Override>, defaults: nat -> Row)
      returns (result: Result<Stats, SyncError>)
      requires !identityInsert
      modifies this
      ensures !identityInsert
      ensures var spec := SyncFromRows(env, old(table), payloads, override, defaults);
        if spec.Err? then result == Err(spec.error) && table == old(table)
        else result == Ok(spec.value.1) && table == spec.value.0
    {
      hide RunMerge;
      hide BuildMerge;
      hide BuildPlan;
      var sourceColumns := ColumnsOfRows(table.columns, payloads);
      if sourceColumns == [] {
        return Err(NoMatchingColumns);
      }
      var built := BuildPlan(sourceColumns, table.columns, override);
      if built.Err? {
        return Err(Planning(built.error));
      }
      var plan := built.value;
      var ok := CreateStage(plan);
      if !ok {
        return Err(Server(DuplicateColumn));
      }
      if payloads != [] {
        ok := InsertStage(plan, payloads);
        if !ok {
          return Err(Server(ConstraintViolated));
        }
      }
      assert stage == StageRows(plan, payloads);
      var counts := RunMergeQuery(plan, defaults);
      if counts.Err? {
        return Err(Server(counts.error));
      }
      result := Ok(Stats(counts.value.0, counts.value.1, |payloads|));
    }
  }

  lemma NothingStaged(plan: Plan, rows: seq<Row>)
    ensures StageRows(plan, rows[..0]) == [] && StageAcceptsAll(plan, rows[..0])
  {
  }

  lemma AcceptsParts(plan: Plan, a: seq<Row>, b: seq<Row>)
    ensures StageAcceptsAll(plan, a + b) <==> StageAcceptsAll(plan, a) && StageAcceptsAll(plan, b)
  {
    hide StageAccepts;
    if StageAcceptsAll(plan, a + b) {
      forall k | 0 <= k < |a| ensures StageAccepts(plan, a[k]) {
        assert (a + b)[k] == a[k];
      }
      forall k | 0 <= k < |b| ensures StageAccepts(plan, b[k]) {
        assert (a + b)[|a| + k] == b[k];
      }
    }
  }

  /** Staging the rows before i and then those from i to j is staging the rows before j, failures included. */
  lemma BatchStaged(plan: Plan, rows: seq<Row>, i: nat, j: nat)
    requires i <= j <= |rows|
    ensures StageRows(plan, rows[..j]) == StageRows(plan, rows[..i]) + StageRows(plan, rows[i..j])
    ensures StageAcceptsAll(plan, rows[..j]) <==> StageAcceptsAll(plan, rows[..i]) && StageAcceptsAll(plan, rows[i..j])
    ensures StageAcceptsAll(plan, rows) ==> StageAcceptsAll(plan, rows[..j])
  {
    hide StageAcceptsAll;
    hide StageRow;
    assert rows[..j] == rows[..i] + rows[i..j];
    assert rows == rows[..j] + rows[j..];
    AcceptsParts(plan, rows[..i], rows[i..j]);
    AcceptsParts(plan, rows[..j], rows[j..]);
  }

  // ---- What a synchronisation reports and what a second one does ----

  /** Source rows as the stage holds them have the keys and values of the source. */
  lemma StagedColumn(plan: Plan, r: Row, n: string)
    ensures n in Names(plan.syncColumns) ==> Get(StageRow(Names(plan.syncColumns), r), n) == Get(r, n)
  {
  }

  ghost predicate DistinctKeys(env: Collations, plan: Plan, rows: seq<Row>) {
    DistinctRows(env, KeyOf(plan), StageRows(plan, rows)) && forall i :: 0 <= i < |rows| ==>
      NonNullKey(KeyOf(plan), StageRows(plan, rows)[i])
  }

  /** A target row has the key of a source row and agrees with it on every synchronised column outside the key. */
  predicate Mirrors(env: Collations, plan: Plan, target: Row, r: Row) {
    && SameKey(env, KeyOf(plan), target, r)
    && forall c :: c in plan.syncColumns && c.name !in KeyOf(plan) ==> Agree(env, c, target, r)
  }

  /** The stage stands for the source: it has the same keys and the same updatable values. */
  lemma StagedMirrors(env: Collations, plan: Plan, columns: seq<ColumnMetadata>, target: Row, r: Row)
    requires WellFormed(plan, columns)
    ensures var s := StageRow(Names(plan.syncColumns), r);
      && (SameKey(env, KeyOf(plan), target, s) <==> SameKey(env, KeyOf(plan), target, r))
      && (Mirrors(env, plan, target, s) <==> Mirrors(env, plan, target, r))
  {
    hide WellFormed;
    var s := StageRow(Names(plan.syncColumns), r);
    forall i | 0 <= i < |KeyOf(plan)|
      ensures SamePart(env, KeyOf(plan)[i], target, s) <==> SamePart(env, KeyOf(plan)[i], target, r)
    {
      KeyInSync(plan, columns, KeyOf(plan)[i]);
      StagedColumn(plan, r, KeyOf(plan)[i]);
    }
    forall c | c in plan.syncColumns ensures Agree(env, c, target, s) <==> Agree(env, c, target, r) {
      NameOfMember(plan.syncColumns, c);
      StagedColumn(plan, r, c.name);
    }
  }

  /**
   After a synchronisation that succeeds every source row has a target row of its key that agrees with it on every
   updatable column, and no target row of its key disagrees with it.
   */
  lemma TargetMirrorsSource(env: Collations, plan: Plan, t: Table, rows: seq<Row>, defaults: nat -> Row, j: nat)
    requires WellFormed(plan, t.columns) && TypedAll(plan, t.rows) && TypedAll(plan, StageRows(plan, rows))
    requires DistinctKeys(env, plan, rows) && j < |rows|
    requires StagingMerge(env, plan, t, rows, defaults).Ok?
    ensures var u := StagingMerge(env, plan, t, rows, defaults).value.0;
      && (exists i :: 0 <= i < |u.rows| && Mirrors(env, plan, u.rows[i], rows[j]))
      && forall i :: 0 <= i < |u.rows| && SameKey(env, KeyOf(plan), u.rows[i], rows[j]) ==>
           Mirrors(env, plan, u.rows[i], rows[j])
  {
    hide MergedRows;
    hide WellFormed;
    hide Differs;
    hide SameKey;
    hide Mirrors;
    var stage := StageRows(plan, rows);
    var u := StagingMerge(env, plan, t, rows, defaults).value.0;
    assert u.rows == MergedRows(env, BuildMerge(plan), t.rows, stage, defaults);
    hide RunMerge;
    hide BuildMerge;
    forall i | 0 <= i < |u.rows| && SameKey(env, KeyOf(plan), u.rows[i], rows[j])
      ensures Mirrors(env, plan, u.rows[i], rows[j])
    {
      StagedMirrors(env, plan, t.columns, u.rows[i], rows[j]);
      NothingLeft(env, plan, t.columns, t.rows, stage, defaults, i, j);
      UnchangedMirrors(env, plan, u.rows[i], stage[j]);
    }
    EverySourceRowMatched(env, plan, t.columns, t.rows, stage, defaults, j);
    var i :| 0 <= i < |u.rows| && SameKey(env, KeyOf(plan), u.rows[i], stage[j]);
    StagedMirrors(env, plan, t.columns, u.rows[i], rows[j]);
  }

  lemma UnchangedMirrors(env: Collations, plan: Plan, target: Row, s: Row)
    requires SameKey(env, KeyOf(plan), target, s) && !Changes(env, plan, target, s)
    ensures Mirrors(env, plan, target, s)
  {
    hide SameKey;
  }

  /** The counts: source rows without a target row of their key, and target rows some source row really changes. */
  lemma StatsExact(env: Collations, plan: Plan, t: Table, rows: seq<Row>, defaults: nat -> Row)
    requires TypedAll(plan, t.rows) && TypedAll(plan, StageRows(plan, rows))
    requires StagingMerge(env, plan, t, rows, defaults).Ok?
    ensures var (u, stats) := StagingMerge(env, plan, t, rows, defaults).value;
      && stats.sourceRowCount == |rows|
      && stats.insertedCount == |Unmatched(env, BuildMerge(plan), t.rows, StageRows(plan, rows))| == |u.rows| - |t.rows|
      && stats.updatedCount == ChangedCount(env, plan, t.rows, StageRows(plan, rows))
  {
    hide Satisfies;
    hide IdentityAllowed;
    hide UpdatedOnce;
    hide StageAcceptsAll;
    ActionsCounted(env, plan, t, StageRows(plan, rows), HasIdentityKey(plan), defaults);
  }

  /** Every column a part of the primary key, and every part equal and not NULL. */
  predicate SamePrimaryKey(env: Collations, columns: seq<ColumnMetadata>, a: Row, b: Row) {
    forall c :: c in columns && c.isPrimaryKey ==>
      !Get(a, c.name).Null? && !Get(b, c.name).Null?
      && Fold(env, OfColumn(c.name), Get(a, c.name)) == Fold(env, OfColumn(c.name), Get(b, c.name))
  }

  /** A synchronisation that goes through leaves no NULL in a NOT NULL column and no two rows with one primary key. */
  lemma SyncKeepsConstraints(env: Collations, plan: Plan, t: Table, rows: seq<Row>, defaults: nat -> Row)
    requires StagingMerge(env, plan, t, rows, defaults).Ok?
    ensures var u := StagingMerge(env, plan, t, rows, defaults).value.0;
      && u.columns == t.columns
      && (forall i, c :: 0 <= i < |u.rows| && c in t.columns && !c.isNullable ==> Get(u.rows[i], c.name) != Null)
      && forall i, j :: 0 <= i < j < |u.rows| ==> !SamePrimaryKey(env, t.columns, u.rows[i], u.rows[j])
  {
    hide MergedRows;
    hide BuildMerge;
    hide IdentityAllowed;
    hide UpdatedOnce;
    hide SameKey;
    hide SamePrimaryKey;
    var u := StagingMerge(env, plan, t, rows, defaults).value.0;
    assert u.columns == t.columns && Satisfies(env, u);
    forall i, c | 0 <= i < |u.rows| && c in t.columns && !c.isNullable ensures Get(u.rows[i], c.name) != Null {
      var k :| 0 <= k < |t.columns| && t.columns[k] == c;
      assert NullsAllowed(u.columns, u.rows[i]);
    }
    forall i, j | 0 <= i < j < |u.rows| ensures !SamePrimaryKey(env, t.columns, u.rows[i], u.rows[j]) {
      KeyByColumns(env, t.columns, u.rows[i], u.rows[j]);
    }
  }

  lemma KeyByColumns(env: Collations, columns: seq<ColumnMetadata>, a: Row, b: Row)
    ensures SamePrimaryKey(env, columns, a, b) ==> SameKey(env, KeyNames(columns), a, b)
  {
    if SamePrimaryKey(env, columns, a, b) {
      forall i | 0 <= i < |KeyNames(columns)| ensures SamePart(env, KeyNames(columns)[i], a, b) {
        var c := KeyColumnAt(columns, i);
      }
    }
  }

  lemma {:induction false} KeyColumnAt(columns: seq<ColumnMetadata>, i: nat) returns (c: ColumnMetadata)
    requires i < |KeyNames(columns)|
    ensures c in columns && c.isPrimaryKey && c.name == KeyNames(columns)[i]
  {
    if columns[0].isPrimaryKey && i == 0 {
      c := columns[0];
    } else {
      c := KeyColumnAt(columns[1..], if columns[0].isPrimaryKey then i - 1 else i);
    }
  }

  /** The same source again: nothing inserted, nothing updated, the table as it was. */
  lemma SyncTwice(env: Collations, plan: Plan, t: Table, rows: seq<Row>, defaults: nat -> Row, later: nat -> Row)
    requires WellFormed(plan, t.columns) && TypedAll(plan, t.rows) && TypedAll(plan, StageRows(plan, rows))
    requires DistinctKeys(env, plan, rows)
    requires StagingMerge(env, plan, t, rows, defaults).Ok?
    ensures var (u, stats) := StagingMerge(env, plan, t, rows, defaults).value;
      StagingMerge(env, plan, u, rows, later) == Ok((u, Stats(0, 0, |rows|)))
  {
    hide RunMerge;
    hide WellFormed;
    MergeAgain(env, plan, t, StageRows(plan, rows), HasIdentityKey(plan), defaults, later);
  }

  // ---- Payload rows ----

  /**
   Rows given as payloads synchronise only columns that the first row names, and without an override all of the
   target's; when the first row names no column of the target nothing is synchronised.
   */
  lemma RowsPlan(env: Collations, t: Table, payloads: seq<Row>, override: Option<Override>, defaults: nat -> Row)
    requires Distinct(Names(t.columns)) && payloads != []
    ensures var named := ColumnsOfRows(t.columns, payloads); var plan := BuildPlan(named, t.columns, override);
      && (SyncFromRows(env, t, payloads, override, defaults) == Err(NoMatchingColumns) <==>
            forall c :: c in t.columns ==> c.name !in payloads[0])
      && (plan.Ok? ==> forall c :: c in plan.value.syncColumns ==> c.name in payloads[0])
      && (plan.Ok? && override.None? ==>
            forall c :: c in plan.value.syncColumns <==> c in t.columns && c.name in payloads[0])
  {
    hide BuildPlan;
    hide ColumnsOfRows;
    hide Names;
    hide SyncFromRows;
    var named := ColumnsOfRows(t.columns, payloads);
    hide Distinct;
    NothingNamed(env, t, payloads, override, defaults);
    if BuildPlan(named, t.columns, override).Ok? {
      SyncedFromSource(named, t.columns, override);
      if override.None? {
        NamedPlan(t.columns, payloads);
      }
    }
  }

  lemma NamedPlan(columns: seq<ColumnMetadata>, payloads: seq<Row>)
    requires Distinct(Names(columns)) && payloads != []
    requires BuildPlan(ColumnsOfRows(columns, payloads), columns, None).Ok?
    ensures forall c :: c in BuildPlan(ColumnsOfRows(columns, payloads), columns, None).value.syncColumns <==>
      c in columns && c.name in payloads[0]
  {
    hide BuildPlan;
    hide ColumnsOfRows;
    hide Names;
    hide SharedKey;
    hide KeysAgree;
    hide Distinct;
    var named := ColumnsOfRows(columns, payloads);
    NamedDistinct(columns, payloads);
    DefaultPlan(named, columns);
    forall c | c in columns ensures c.name in Names(named) <==> c.name in payloads[0] {
      NamedMember(columns, payloads, c);
    }
  }

  lemma NamedMember(columns: seq<ColumnMetadata>, payloads: seq<Row>, c: ColumnMetadata)
    requires c in columns && payloads != []
    ensures c.name in Names(ColumnsOfRows(columns, payloads)) <==> c.name in payloads[0]
  {
    hide ColumnsOfRows;
    var named := ColumnsOfRows(columns, payloads);
    if c.name in Names(named) {
      var i :| 0 <= i < |named| && Names(named)[i] == c.name;
      assert named[i] in named;
    }
    if c.name in payloads[0] {
      NameOfMember(named, c);
    }
  }

  lemma NothingNamed(env: Collations, t: Table, payloads: seq<Row>, override: Option<Override>, defaults: nat -> Row)
    ensures SyncFromRows(env, t, payloads, override, defaults) == Err(NoMatchingColumns) <==>
      forall c :: c in t.columns ==> payloads != [] && c.name !in payloads[0]
  {
    hide BuildPlan;
    hide RunMerge;
    hide BuildMerge;
    hide StageAcceptsAll;
    hide ColumnsOfRows;
    var named := ColumnsOfRows(t.columns, payloads);
    if named != [] {
      assert named[0] in named;
    }
  }

  /** Every synchronised column has its name among the source's columns. */
  lemma SyncedFromSource(sourceColumns: seq<ColumnMetadata>, targetColumns: seq<ColumnMetadata>,
      override: Option<Override>)
    requires BuildPlan(sourceColumns, targetColumns, override).Ok?
    ensures forall c :: c in BuildPlan(sourceColumns, targetColumns, override).value.syncColumns ==>
      exists s :: s in sourceColumns && s.name == c.name
  {
    hide BuildPlan;
    PlanIsWellFormed(sourceColumns, targetColumns, override);
    var plan := BuildPlan(sourceColumns, targetColumns, override).value;
    forall c | c in plan.syncColumns ensures exists s :: s in sourceColumns && s.name == c.name {
      var i :| 0 <= i < |plan.syncColumns| && plan.syncColumns[i] == c;
      assert plan.sourceColumns[i] in sourceColumns;
    }
  }

  lemma NamedDistinct(columns: seq<ColumnMetadata>, payloads: seq<Row>)
    requires Distinct(Names(columns))
    ensures Distinct(Names(ColumnsOfRows(columns, payloads)))
    ensures forall n :: n in Names(ColumnsOfRows(columns, payloads)) ==> n in Names(columns)
  {
    FilterNamesDistinct((c: ColumnMetadata) => payloads == [] || c.name in payloads[0], columns);
  }

  lemma {:induction false} FilterNamesDistinct(p: ColumnMetadata -> bool, columns: seq<ColumnMetadata>)
    requires Distinct(Names(columns))
    ensures Distinct(Names(Filter(p, columns)))
    ensures forall n :: n in Names(Filter(p, columns)) ==> n in Names(columns)
  {
    if columns != [] {
      var rest := columns[1..];
      forall i, j | 0 <= i < j < |rest| ensures Names(rest)[i] != Names(rest)[j] {
        assert Names(columns)[i + 1] != Names(columns)[j + 1];
      }
      FilterNamesDistinct(p, rest);
      OtherNames(columns);
      var kept := Filter(p, rest);
      assert Names([columns[0]] + kept) == [columns[0].name] + Names(kept);
    }
  }

  lemma OtherNames(columns: seq<ColumnMetadata>)
    requires columns != [] && Distinct(Names(columns))
    ensures columns[0].name in Names(columns)
    ensures forall n :: n in Names(columns[1..]) ==> n in Names(columns) && n != columns[0].name
  {
    var names := Names(columns);
    assert names[0] == columns[0].name;
    forall n | n in Names(columns[1..]) ensures n in names && n != columns[0].name {
      var i :| 0 <= i < |columns[1..]| && Names(columns[1..])[i] == n;
      assert names[i + 1] == n;
    }
  }

  /** A source row with NULL where the staging table refuses it fails the whole synchronisation. */
  lemma StagedNullRefused(env: Collations, plan: Plan, t: Table, rows: seq<Row>, defaults: nat -> Row, j: nat,
      c: ColumnMetadata)
    requires Distinct(Names(plan.syncColumns)) && j < |rows| && c in plan.syncColumns
    requires Get(rows[j], c.name) == Null && !c.isNullable && !c.isIdentity
    ensures StagingMerge(env, plan, t, rows, defaults) == Err(Server(ConstraintViolated))
  {
    var i :| 0 <= i < |plan.syncColumns| && plan.syncColumns[i] == c;
    assert !StageAccepts(plan, rows[j]);
  }
}
