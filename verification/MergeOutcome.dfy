/** When the MERGE succeeds, and that a second one changes nothing. */
module MergeOutcome {
  import opened Prelude
  import opened SqlServer
  import opened MergePlan
  import opened MergeTheory
  import opened MergeEffect

  // ---- Identity columns ----

  ghost predicate OneIdentity(columns: seq<ColumnMetadata>) {
    forall c, d :: c in columns && d in columns && c.isIdentity && d.isIdentity ==> c == d
  }

  lemma SyncColumnNamed(plan: Plan, columns: seq<ColumnMetadata>, c: ColumnMetadata)
    requires WellFormed(plan, columns) && Distinct(Names(columns)) && c in columns && c.name in Names(plan.syncColumns)
    ensures c in plan.syncColumns
  {
    var i :| 0 <= i < |plan.syncColumns| && plan.syncColumns[i].name == c.name;
    assert plan.syncColumns[i] in plan.syncColumns;
    SameName(columns, plan.syncColumns[i], c);
  }

  /** The server accepts the statement's use of an identity column exactly when every one synchronised is in the key. */
  lemma IdentityRule(plan: Plan, columns: seq<ColumnMetadata>)
    requires WellFormed(plan, columns) && Distinct(Names(columns)) && OneIdentity(columns)
    ensures IdentityAllowed(BuildMerge(plan), columns, HasIdentityKey(plan)) <==>
      forall c :: c in plan.syncColumns && c.isIdentity ==> c in plan.primaryKeyColumns
  {
    var m := BuildMerge(plan);
    if IdentityAllowed(m, columns, HasIdentityKey(plan)) {
      forall c | c in plan.syncColumns && c.isIdentity ensures c in plan.primaryKeyColumns {
        var i :| 0 <= i < |columns| && columns[i] == c;
        NameOfMember(plan.syncColumns, c);
        assert HasIdentityKey(plan);
        var k :| 0 <= k < |plan.primaryKeyColumns| && plan.primaryKeyColumns[k].isIdentity;
        assert plan.primaryKeyColumns[k] in plan.primaryKeyColumns;
      }
    }
    if forall c :: c in plan.syncColumns && c.isIdentity ==> c in plan.primaryKeyColumns {
      forall i | 0 <= i < |columns| && columns[i].isIdentity
        ensures columns[i].name in m.insertColumns <==> HasIdentityKey(plan)
        ensures m.update.Some? ==> forall k :: 0 <= k < |m.update.value.assignments| ==>
          m.update.value.assignments[k].column != columns[i].name
      {
        IdentityColumnAllowed(plan, columns, columns[i]);
      }
    }
  }

  lemma IdentityColumnAllowed(plan: Plan, columns: seq<ColumnMetadata>, c: ColumnMetadata)
    requires WellFormed(plan, columns) && Distinct(Names(columns)) && OneIdentity(columns)
    requires c in columns && c.isIdentity
    requires forall d :: d in plan.syncColumns && d.isIdentity ==> d in plan.primaryKeyColumns
    ensures c.name in Names(plan.syncColumns) <==> HasIdentityKey(plan)
    ensures c.name !in Names(UpdatableColumns(plan))
  {
    if c.name in Names(plan.syncColumns) {
      SyncColumnNamed(plan, columns, c);
      var k :| 0 <= k < |plan.primaryKeyColumns| && plan.primaryKeyColumns[k] == c;
      NameOfMember(plan.primaryKeyColumns, c);
    }
    UpdatableNames(plan, c.name);
    if HasIdentityKey(plan) {
      var k :| 0 <= k < |plan.primaryKeyColumns| && plan.primaryKeyColumns[k].isIdentity;
      assert plan.primaryKeyColumns[k] in plan.primaryKeyColumns;
      NameOfMember(plan.syncColumns, c);
    }
  }

  // ---- Success ----

  lemma SameKeyByNames(env: Collations, names: seq<string>, other: seq<string>, a: Row, b: Row)
    requires forall n :: n in names <==> n in other
    ensures SameKey(env, names, a, b) <==> SameKey(env, other, a, b)
  {
    if SameKey(env, names, a, b) {
      forall i | 0 <= i < |other| ensures SamePart(env, other[i], a, b) {
        assert other[i] in names;
      }
    }
    if SameKey(env, other, a, b) {
      forall i | 0 <= i < |names| ensures SamePart(env, names[i], a, b) {
        assert names[i] in other;
      }
    }
  }

  /** Staged rows with distinct, non-NULL keys that respect NOT NULL. */
  ghost predicate GoodStage(env: Collations, plan: Plan, stage: seq<Row>) {
    && TypedAll(plan, stage) && DistinctRows(env, KeyOf(plan), stage)
    && (forall j :: 0 <= j < |stage| ==> NonNullKey(KeyOf(plan), stage[j]) && NullsAllowed(plan.syncColumns, stage[j]))
  }

  /** Columns that are not synchronised get NULL only where the table allows it. */
  ghost predicate GoodDefaults(plan: Plan, columns: seq<ColumnMetadata>, defaults: nat -> Row) {
    forall k: nat, c :: c in columns && c.name !in Names(plan.syncColumns) && Get(defaults(k), c.name).Null? ==>
      c.isNullable
  }

  lemma StagedNull(plan: Plan, columns: seq<ColumnMetadata>, s: Row, c: ColumnMetadata)
    requires WellFormed(plan, columns) && Distinct(Names(columns)) && c in columns && c.name in Names(plan.syncColumns)
    requires NullsAllowed(plan.syncColumns, s) && Get(s, c.name).Null?
    ensures c.isNullable
  {
    SyncColumnNamed(plan, columns, c);
    var i :| 0 <= i < |plan.syncColumns| && plan.syncColumns[i] == c;
  }

  lemma NullsStayAllowed(env: Collations, plan: Plan, t: Table, stage: seq<Row>, defaults: nat -> Row, i: nat)
    requires WellFormed(plan, t.columns) && Distinct(Names(t.columns)) && Satisfies(env, t)
    requires TypedAll(plan, t.rows) && GoodStage(env, plan, stage) && GoodDefaults(plan, t.columns, defaults)
    requires i < |MergedRows(env, BuildMerge(plan), t.rows, stage, defaults)|
    ensures NullsAllowed(t.columns, MergedRows(env, BuildMerge(plan), t.rows, stage, defaults)[i])
  {
    hide MergedRows;
    hide Differs;
    hide SameKey;
    hide DistinctRows;
    hide TypedRow;
    hide WellFormed;
    hide BuildMerge;
    hide NonNullKey;
    var after := MergedRows(env, BuildMerge(plan), t.rows, stage, defaults);
    var added := Unmatched(env, BuildMerge(plan), t.rows, stage);
    MergeRows(env, plan, t.rows, stage, defaults);
    forall x | 0 <= x < |t.columns| && Get(after[i], t.columns[x].name).Null? ensures t.columns[x].isNullable {
      var c := t.columns[x];
      if i >= |t.rows| {
        var k := i - |t.rows|;
        assert after[i] == after[|t.rows| + k];
        assert Get(after[|t.rows| + k], c.name) ==
          if c.name in Names(plan.syncColumns) then Get(added[k], c.name) else Get(defaults(k), c.name);
        if c.name in Names(plan.syncColumns) {
          assert added[k] in added;
          var j :| 0 <= j < |stage| && stage[j] == added[k];
          assert NullsAllowed(plan.syncColumns, stage[j]);
          StagedNull(plan, t.columns, added[k], c);
        } else {
          assert c in t.columns;
        }
      } else if j :| 0 <= j < |stage| && SameKey(env, KeyOf(plan), t.rows[i], stage[j]) {
        assert UpdatedFrom(env, plan, t.rows[i], after[i], stage[j]);
        assert NullsAllowed(t.columns, t.rows[i]) && NullsAllowed(plan.syncColumns, stage[j]);
        if c.name in Names(plan.syncColumns) && Get(after[i], c.name) == Get(stage[j], c.name) {
          StagedNull(plan, t.columns, stage[j], c);
        } else {
          assert Get(after[i], c.name) == Get(t.rows[i], c.name);
        }
      } else {
        assert forall s :: s in stage ==> !SameKey(env, KeyOf(plan), t.rows[i], s);
        assert NullsAllowed(t.columns, t.rows[i]);
      }
    }
  }

  /** A row of the result has the key of an old row or of a staged row that matched none. */
  lemma KeysStayDistinct(env: Collations, plan: Plan, t: Table, stage: seq<Row>, defaults: nat -> Row, i: nat, j: nat)
    requires WellFormed(plan, t.columns) && DistinctRows(env, KeyOf(plan), t.rows)
    requires TypedAll(plan, t.rows) && GoodStage(env, plan, stage)
    requires i < j < |MergedRows(env, BuildMerge(plan), t.rows, stage, defaults)|
    ensures var after := MergedRows(env, BuildMerge(plan), t.rows, stage, defaults);
      !SameKey(env, KeyOf(plan), after[i], after[j])
  {
    hide MergedRows;
    hide SameKey;
    hide NullsAllowed;
    var m := BuildMerge(plan);
    var after := MergedRows(env, m, t.rows, stage, defaults);
    var added := Unmatched(env, m, t.rows, stage);
    MergeRows(env, plan, t.rows, stage, defaults);
    if j < |t.rows| {
      OldRowKey(env, plan, t.rows, stage, defaults, i, after[j]);
      OldRowKey(env, plan, t.rows, stage, defaults, j, t.rows[i]);
    } else {
      var l := j - |t.rows|;
      assert added[l] in added;
      NewRowKey(env, plan, t.columns, t.rows, stage, defaults, l, after[i]);
      if i < |t.rows| {
        OldRowKey(env, plan, t.rows, stage, defaults, i, added[l]);
      } else {
        var k := i - |t.rows|;
        NewRowKey(env, plan, t.columns, t.rows, stage, defaults, k, added[l]);
        UnmatchedPositions(env, m, t.rows, stage, k, l);
      }
    }
  }

  lemma OldRowKey(env: Collations, plan: Plan, rows: seq<Row>, stage: seq<Row>, defaults: nat -> Row, i: nat,
      other: Row)
    requires TypedAll(plan, rows) && TypedAll(plan, stage) && DistinctRows(env, KeyOf(plan), stage) && i < |rows|
    ensures var r := MergedRows(env, BuildMerge(plan), rows, stage, defaults)[i];
      && (SameKey(env, KeyOf(plan), r, other) <==> SameKey(env, KeyOf(plan), rows[i], other))
      && (SameKey(env, KeyOf(plan), other, r) <==> SameKey(env, KeyOf(plan), other, rows[i]))
  {
    hide SameKey;
    hide MergedRows;
    hide UpdatedRow;
    hide TypedRow;
    hide Differs;
    hide DistinctRows;
    hide WellFormed;
    hide BuildMerge;
    var after := MergedRows(env, BuildMerge(plan), rows, stage, defaults);
    MergeRows(env, plan, rows, stage, defaults);
    if j :| 0 <= j < |stage| && SameKey(env, KeyOf(plan), rows[i], stage[j]) {
      assert UpdatedFrom(env, plan, rows[i], after[i], stage[j]);
      assert forall k :: 0 <= k < |KeyOf(plan)| ==> Get(after[i], KeyOf(plan)[k]) == Get(rows[i], KeyOf(plan)[k]);
      SameKeyByParts(env, KeyOf(plan), after[i], rows[i], other);
    } else {
      assert forall s :: s in stage ==> !SameKey(env, KeyOf(plan), rows[i], s);
    }
  }

  lemma NewRowKey(env: Collations, plan: Plan, columns: seq<ColumnMetadata>, rows: seq<Row>, stage: seq<Row>,
      defaults: nat -> Row, k: nat, other: Row)
    requires WellFormed(plan, columns) && TypedAll(plan, rows) && TypedAll(plan, stage)
      && DistinctRows(env, KeyOf(plan), stage)
    requires k < |Unmatched(env, BuildMerge(plan), rows, stage)|
    ensures var after := MergedRows(env, BuildMerge(plan), rows, stage, defaults);
      var s := Unmatched(env, BuildMerge(plan), rows, stage)[k];
      && (SameKey(env, KeyOf(plan), after[|rows| + k], other) <==> SameKey(env, KeyOf(plan), s, other))
      && (SameKey(env, KeyOf(plan), other, after[|rows| + k]) <==> SameKey(env, KeyOf(plan), other, s))
  {
    hide SameKey;
    hide MergedRows;
    hide UpdatedRow;
    hide TypedRow;
    hide Differs;
    hide DistinctRows;
    hide WellFormed;
    hide BuildMerge;
    var after := MergedRows(env, BuildMerge(plan), rows, stage, defaults);
    var s := Unmatched(env, BuildMerge(plan), rows, stage)[k];
    MergeRows(env, plan, rows, stage, defaults);
    forall i | 0 <= i < |KeyOf(plan)| ensures Get(after[|rows| + k], KeyOf(plan)[i]) == Get(s, KeyOf(plan)[i]) {
      KeyInSync(plan, columns, KeyOf(plan)[i]);
    }
    SameKeyByParts(env, KeyOf(plan), after[|rows| + k], s, other);
  }

  /** The key of the plan is the primary key of the table. */
  ghost predicate KeyIsPrimary(plan: Plan, columns: seq<ColumnMetadata>) {
    forall n :: n in KeyOf(plan) <==> n in KeyNames(columns)
  }

  lemma SatisfiesDistinct(env: Collations, plan: Plan, t: Table)
    requires Satisfies(env, t) && KeyIsPrimary(plan, t.columns)
    ensures DistinctRows(env, KeyOf(plan), t.rows)
  {
    forall i, j | 0 <= i < j < |t.rows| ensures !SameKey(env, KeyOf(plan), t.rows[i], t.rows[j]) {
      SameKeyByNames(env, KeyOf(plan), KeyNames(t.columns), t.rows[i], t.rows[j]);
    }
  }

  /** Distinct non-NULL keys and no identity column outside the key: the MERGE cannot fail. */
  lemma MergeSucceeds(env: Collations, plan: Plan, t: Table, stage: seq<Row>, defaults: nat -> Row)
    requires WellFormed(plan, t.columns) && Distinct(Names(t.columns)) && OneIdentity(t.columns)
    requires Distinct(Names(plan.syncColumns)) && KeyIsPrimary(plan, t.columns)
    requires forall c :: c in plan.syncColumns && c.isIdentity ==> c in plan.primaryKeyColumns
    requires Satisfies(env, t) && TypedAll(plan, t.rows)
    requires GoodStage(env, plan, stage) && GoodDefaults(plan, t.columns, defaults)
    ensures RunMerge(env, BuildMerge(plan), t, stage, HasIdentityKey(plan), defaults).Ok?
  {
    hide MergedRows;
    hide IdentityAllowed;
    hide UpdatedOnce;
    hide SameKey;
    hide NullsAllowed;
    hide WellFormed;
    hide Distinct;
    var after := t.(rows := MergedRows(env, BuildMerge(plan), t.rows, stage, defaults));
    IdentityRule(plan, t.columns);
    NoDoubleUpdate(env, plan, t.rows, stage);
    SatisfiesDistinct(env, plan, t);
    forall i | 0 <= i < |after.rows| ensures NullsAllowed(after.columns, after.rows[i]) {
      NullsStayAllowed(env, plan, t, stage, defaults, i);
    }
    forall i, j | 0 <= i < j < |after.rows|
      ensures !SameKey(env, KeyNames(after.columns), after.rows[i], after.rows[j])
    {
      KeysStayDistinct(env, plan, t, stage, defaults, i, j);
      SameKeyByNames(env, KeyOf(plan), KeyNames(after.columns), after.rows[i], after.rows[j]);
    }
  }

  /** An identity column outside the key fails every run, even over an empty stage. */
  lemma IdentityOutsideKeyFails(env: Collations, plan: Plan, t: Table, stage: seq<Row>, defaults: nat -> Row)
    requires WellFormed(plan, t.columns) && Distinct(Names(t.columns)) && OneIdentity(t.columns)
    requires Distinct(Names(plan.syncColumns))
    ensures RunMerge(env, BuildMerge(plan), t, stage, HasIdentityKey(plan), defaults) == Err(IdentityColumn) <==>
      exists c :: c in plan.syncColumns && c.isIdentity && c !in plan.primaryKeyColumns
  {
    hide MergedRows;
    hide Satisfies;
    hide UpdatedOnce;
    hide IdentityAllowed;
    IdentityRule(plan, t.columns);
  }

  // ---- A second run ----

  lemma UpdatedRowTyped(env: Collations, plan: Plan, before: Row, after: Row, s: Row)
    requires UpdatedFrom(env, plan, before, after, s) && Typed(plan, before) && Typed(plan, s)
    ensures Typed(plan, after)
  {
    forall x | 0 <= x < |plan.syncColumns| && Lower(plan.syncColumns[x].typeName) == "bit"
      ensures Get(after, plan.syncColumns[x].name).Null? || Get(after, plan.syncColumns[x].name).Bit?
    {
      assert Get(after, plan.syncColumns[x].name) in {Get(before, plan.syncColumns[x].name),
        Get(s, plan.syncColumns[x].name)};
    }
  }

  lemma RowsStayTyped(env: Collations, plan: Plan, rows: seq<Row>, stage: seq<Row>, defaults: nat -> Row)
    requires TypedAll(plan, rows) && TypedAll(plan, stage) && DistinctRows(env, KeyOf(plan), stage)
    ensures TypedAll(plan, MergedRows(env, BuildMerge(plan), rows, stage, defaults))
  {
    hide MergedRows;
    hide SameKey;
    hide TypedRow;
    hide UpdatedFrom;
    hide DistinctRows;
    var after := MergedRows(env, BuildMerge(plan), rows, stage, defaults);
    var added := Unmatched(env, BuildMerge(plan), rows, stage);
    MergeRows(env, plan, rows, stage, defaults);
    forall i | 0 <= i < |after| ensures Typed(plan, after[i]) {
      if i >= |rows| {
        var k := i - |rows|;
        assert added[k] in added;
        var j :| 0 <= j < |stage| && stage[j] == added[k];
        InsertedTyped(plan, after[|rows| + k], stage[j]);
      } else if j :| 0 <= j < |stage| && SameKey(env, KeyOf(plan), rows[i], stage[j]) {
        UpdatedRowTyped(env, plan, rows[i], after[i], stage[j]);
      } else {
        assert forall s :: s in stage ==> !SameKey(env, KeyOf(plan), rows[i], s);
      }
    }
  }

  lemma InsertedTyped(plan: Plan, a: Row, s: Row)
    requires Typed(plan, s) && forall n :: n in Names(plan.syncColumns) ==> Get(a, n) == Get(s, n)
    ensures Typed(plan, a)
  {
    forall x | 0 <= x < |plan.syncColumns|
      ensures Get(a, plan.syncColumns[x].name) == Get(s, plan.syncColumns[x].name)
    {
      assert Names(plan.syncColumns)[x] == plan.syncColumns[x].name;
    }
  }

  lemma {:induction false} NoActions(env: Collations, m: Merge, rows: seq<Row>, stage: seq<Row>)
    requires forall i :: 0 <= i < |rows| ==> UpdatesOf(env, m, rows[i], stage) == []
    ensures UpdateActions(env, m, rows, stage) == []
  {
    if rows != [] {
      var n := |rows| - 1;
      forall i | 0 <= i < n ensures UpdatesOf(env, m, rows[..n][i], stage) == [] {
        assert rows[..n][i] == rows[i];
      }
      NoActions(env, m, rows[..n], stage);
    }
  }

  /** A table no source row changes and every source row matches: the MERGE leaves it as it is and reports nothing. */
  lemma MergeOfNothing(env: Collations, plan: Plan, rows: seq<Row>, stage: seq<Row>, defaults: nat -> Row)
    requires TypedAll(plan, rows) && TypedAll(plan, stage)
    requires forall i, j :: 0 <= i < |rows| && 0 <= j < |stage| ==> !Changes(env, plan, rows[i], stage[j])
    requires forall j :: 0 <= j < |stage| ==> HasTargetRow(env, plan, rows, stage[j])
    ensures var m := BuildMerge(plan);
      && MergedRows(env, m, rows, stage, defaults) == rows && Unmatched(env, m, rows, stage) == []
      && UpdateActions(env, m, rows, stage) == []
  {
    hide BuildMerge;
    hide Changes;
    hide SameKey;
    hide Typed;
    hide UpdatesOf;
    hide Unmatched;
    hide UpdateActions;
    var m := BuildMerge(plan);
    forall i | 0 <= i < |rows| ensures UpdatesOf(env, m, rows[i], stage) == [] {
      UpdatedIffChanged(env, plan, rows[i], stage);
    }
    NoActions(env, m, rows, stage);
    NothingUnmatched(env, plan, rows, stage);
    assert MergedRows(env, m, rows, stage, defaults) == rows;
  }

  lemma NothingUnmatched(env: Collations, plan: Plan, rows: seq<Row>, stage: seq<Row>)
    requires forall j :: 0 <= j < |stage| ==> HasTargetRow(env, plan, rows, stage[j])
    ensures Unmatched(env, BuildMerge(plan), rows, stage) == []
  {
    hide BuildMerge;
    hide SameKey;
    var m := BuildMerge(plan);
    var added := Unmatched(env, m, rows, stage);
    forall s | s in stage ensures s !in added {
      UnmatchedMember(env, m, rows, stage, s);
      var j :| 0 <= j < |stage| && stage[j] == s;
      var i :| 0 <= i < |rows| && SameKey(env, KeyOf(plan), rows[i], stage[j]);
      JoinIsSameKey(env, plan, rows[i], s);
    }
    forall s ensures s in added ==> s in stage {
      UnmatchedMember(env, m, rows, stage, s);
    }
    NoMembers(added);
  }

  lemma NoMembers<T(!new)>(s: seq<T>)
    requires forall x :: x !in s
    ensures s == []
  {
    forall x ensures multiset(s)[x] == 0 {
      assert x in multiset(s) <==> x in s;
    }
    assert multiset(s) == multiset{};
    assert |multiset(s)| == |s|;
  }

  /** Running the MERGE again over the same source rows changes no row and reports no action. */
  lemma MergeAgain(env: Collations, plan: Plan, t: Table, stage: seq<Row>, identityInsert: bool, defaults: nat -> Row,
      later: nat -> Row)
    requires WellFormed(plan, t.columns) && TypedAll(plan, t.rows) && TypedAll(plan, stage)
    requires DistinctRows(env, KeyOf(plan), stage) && forall k :: 0 <= k < |stage| ==> NonNullKey(KeyOf(plan), stage[k])
    requires RunMerge(env, BuildMerge(plan), t, stage, identityInsert, defaults).Ok?
    ensures var u := RunMerge(env, BuildMerge(plan), t, stage, identityInsert, defaults).value.0;
      RunMerge(env, BuildMerge(plan), u, stage, identityInsert, later) == Ok((u, []))
  {
    hide MergedRows;
    hide IdentityAllowed;
    hide UpdatedOnce;
    hide Satisfies;
    hide SameKey;
    hide TypedAll;
    hide WellFormed;
    hide Changes;
    hide Differs;
    hide NonNullKey;
    hide UpdateActions;
    hide Unmatched;
    var m := BuildMerge(plan);
    var u := RunMerge(env, m, t, stage, identityInsert, defaults).value.0;
    RowsStayTyped(env, plan, t.rows, stage, defaults);
    forall i, j | 0 <= i < |u.rows| && 0 <= j < |stage| ensures !Changes(env, plan, u.rows[i], stage[j]) {
      NothingLeft(env, plan, t.columns, t.rows, stage, defaults, i, j);
    }
    forall j | 0 <= j < |stage| ensures HasTargetRow(env, plan, u.rows, stage[j]) {
      EverySourceRowMatched(env, plan, t.columns, t.rows, stage, defaults, j);
    }
    MergeOfNothing(env, plan, u.rows, stage, later);
    NoDoubleUpdate(env, plan, u.rows, stage);
    assert u == t.(rows := MergedRows(env, m, t.rows, stage, defaults));
    assert u.(rows := MergedRows(env, m, u.rows, stage, later)) == u;
    assert UpdateActions(env, m, u.rows, stage) + seq(|Unmatched(env, m, u.rows, stage)|, _ => Inserted) == [];
  }
}
