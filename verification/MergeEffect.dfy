/** The target table after the MERGE, its action counts, and a second run. */
module MergeEffect {
  import opened Prelude
  import opened SqlServer
  import opened MergePlan
  import opened MergeTheory

  // ---- Rows written ----

  lemma {:induction false} AssignEffect(cols: seq<ColumnMetadata>, t: Row, s: Row, n: string)
    ensures var r := Assign(Map(FromSource, cols), t, s);
      && (n in Names(cols) ==> n in r && r[n] == Get(s, n))
      && (n !in Names(cols) ==> (n in r <==> n in t) && Get(r, n) == Get(t, n))
  {
    if cols != [] {
      var front, last := cols[..|cols| - 1], cols[|cols| - 1];
      AssignEffect(front, t, s, n);
      assert Map(FromSource, cols)[..|cols| - 1] == Map(FromSource, front);
      assert Names(cols) == Names(front) + [last.name];
    }
  }

  lemma {:induction false} InsertEffect(cols: seq<ColumnMetadata>, defaults: Row, s: Row, n: string)
    ensures Get(InsertedRow(Names(cols), Map(SourceColumn, cols), defaults, s), n) ==
      if n in Names(cols) then Get(s, n) else Get(defaults, n)
  {
    if cols != [] {
      var front, last := cols[..|cols| - 1], cols[|cols| - 1];
      InsertEffect(front, defaults, s, n);
      assert Names(cols)[..|cols| - 1] == Names(front);
      assert Map(SourceColumn, cols)[..|cols| - 1] == Map(SourceColumn, front);
      assert Names(cols) == Names(front) + [last.name];
    }
  }

  lemma {:induction false} UnmatchedMember(env: Collations, m: Merge, rows: seq<Row>, stage: seq<Row>, s: Row)
    ensures s in Unmatched(env, m, rows, stage) <==> s in stage && MatchesNone(env, m, rows, s)
  {
    if stage != [] {
      var n := |stage| - 1;
      UnmatchedMember(env, m, rows, stage[..n], s);
      assert stage == stage[..n] + [stage[n]];
    }
  }

  /** The rows inserted are source rows in their order: the k-th comes from an increasing position. */
  lemma {:induction false} UnmatchedPositions(env: Collations, m: Merge, rows: seq<Row>, stage: seq<Row>, k: nat,
      l: nat)
    requires k < l < |Unmatched(env, m, rows, stage)|
    ensures var added := Unmatched(env, m, rows, stage);
      exists i, j :: 0 <= i < j < |stage| && stage[i] == added[k] && stage[j] == added[l]
  {
    var n := |stage| - 1;
    var front := Unmatched(env, m, rows, stage[..n]);
    if l < |front| {
      UnmatchedPositions(env, m, rows, stage[..n], k, l);
      var i, j :| 0 <= i < j < n && stage[..n][i] == front[k] && stage[..n][j] == front[l];
      assert stage[i] == front[k] && stage[j] == front[l];
    } else {
      UnmatchedMember(env, m, rows, stage[..n], front[k]);
      var i :| 0 <= i < n && stage[..n][i] == front[k];
      assert stage[i] == front[k] && stage[n] == Unmatched(env, m, rows, stage)[l];
    }
  }

  // ---- The effect, row by row ----

  predicate TypedAll(plan: Plan, rows: seq<Row>) {
    forall i :: 0 <= i < |rows| ==> Typed(plan, rows[i])
  }

  function KeyOf(plan: Plan): seq<string> {
    Names(plan.primaryKeyColumns)
  }

  /** An update writes exactly the synchronised columns outside the key. */
  lemma UpdatableNames(plan: Plan, n: string)
    ensures n in Names(UpdatableColumns(plan)) <==> n in Names(plan.syncColumns) && n !in KeyOf(plan)
  {
    var cols := UpdatableColumns(plan);
    if n in Names(cols) {
      var i :| 0 <= i < |cols| && Names(cols)[i] == n;
      assert cols[i] in cols;
      NameOfMember(plan.syncColumns, cols[i]);
    }
    if n in Names(plan.syncColumns) && n !in KeyOf(plan) {
      var i :| 0 <= i < |plan.syncColumns| && Names(plan.syncColumns)[i] == n;
      NameOfMember(cols, plan.syncColumns[i]);
    }
  }

  /** A row the source knows: its updatable columns are the source's wherever they really differ, the rest stays. */
  ghost predicate UpdatedFrom(env: Collations, plan: Plan, before: Row, after: Row, s: Row) {
    && (if Differs(env, plan, before, s) then
          forall n :: Get(after, n) ==
            if n in Names(plan.syncColumns) && n !in KeyOf(plan) then Get(s, n) else Get(before, n)
        else after == before)
  }

  lemma RowEffect(env: Collations, plan: Plan, t: Row, stage: seq<Row>, s: Row)
    requires Typed(plan, t) && TypedAll(plan, stage) && DistinctRows(env, KeyOf(plan), stage)
    requires s in stage && SameKey(env, KeyOf(plan), t, s)
    ensures UpdatedFrom(env, plan, t, UpdatedRow(env, BuildMerge(plan), t, stage), s)
  {
    hide Differs;
    hide SamePart;
    hide TypedRow;
    var m := BuildMerge(plan);
    var from := UpdatesOf(env, m, t, stage);
    var j :| 0 <= j < |stage| && stage[j] == s;
    UpdateFires(env, plan, t, s);
    UpdatesOfMember(env, m, t, stage, s);
    if from != [] {
      var u := from[0];
      UpdatesOfMember(env, m, t, stage, u);
      var k :| 0 <= k < |stage| && stage[k] == u;
      UpdateFires(env, plan, t, u);
      OneRowPerKey(env, KeyOf(plan), stage, t, j, k);
      forall n
        ensures Get(UpdatedRow(env, m, t, stage), n) ==
          if n in Names(plan.syncColumns) && n !in KeyOf(plan) then Get(s, n) else Get(t, n)
      {
        AssignEffect(UpdatableColumns(plan), t, s, n);
        UpdatableNames(plan, n);
      }
    }
  }

  lemma RowUntouched(env: Collations, plan: Plan, t: Row, stage: seq<Row>)
    requires Typed(plan, t) && TypedAll(plan, stage)
    requires forall s :: s in stage ==> !SameKey(env, KeyOf(plan), t, s)
    ensures UpdatedRow(env, BuildMerge(plan), t, stage) == t
  {
    var m := BuildMerge(plan);
    var from := UpdatesOf(env, m, t, stage);
    if from != [] {
      UpdatesOfMember(env, m, t, stage, from[0]);
      assert TypedAll(plan, stage);
      var k :| 0 <= k < |stage| && stage[k] == from[0];
      UpdateFires(env, plan, t, from[0]);
      assert false;
    }
  }

  /** After an update the row agrees with its source row on every column that can be updated. */
  lemma UpdatedAgrees(env: Collations, plan: Plan, before: Row, after: Row, s: Row)
    requires UpdatedFrom(env, plan, before, after, s)
    ensures !Differs(env, plan, after, s)
  {
    forall c | c in plan.syncColumns && c.name !in KeyOf(plan) && Differs(env, plan, before, s)
      ensures Agree(env, c, after, s)
    {
      NameOfMember(plan.syncColumns, c);
    }
  }

  /** The key of a row survives the update. */
  lemma KeySurvives(env: Collations, plan: Plan, before: Row, after: Row, s: Row, other: Row)
    requires UpdatedFrom(env, plan, before, after, s)
    ensures SameKey(env, KeyOf(plan), after, other) <==> SameKey(env, KeyOf(plan), before, other)
  {
    assert forall i :: 0 <= i < |KeyOf(plan)| ==> Get(after, KeyOf(plan)[i]) == Get(before, KeyOf(plan)[i]);
    SameKeyByParts(env, KeyOf(plan), after, before, other);
  }

  lemma SameKeyByParts(env: Collations, names: seq<string>, a: Row, b: Row, other: Row)
    requires forall i :: 0 <= i < |names| ==> Get(a, names[i]) == Get(b, names[i])
    ensures SameKey(env, names, a, other) <==> SameKey(env, names, b, other)
    ensures SameKey(env, names, other, a) <==> SameKey(env, names, other, b)
  {
    forall i | 0 <= i < |names|
      ensures SamePart(env, names[i], a, other) <==> SamePart(env, names[i], b, other)
      ensures SamePart(env, names[i], other, a) <==> SamePart(env, names[i], other, b)
    {
      assert Get(a, names[i]) == Get(b, names[i]);
    }
  }

  /** The rows inserted are the source rows whose key no target row has. */
  lemma AddedRow(env: Collations, plan: Plan, rows: seq<Row>, stage: seq<Row>, s: Row)
    ensures s in Unmatched(env, BuildMerge(plan), rows, stage) <==>
      s in stage && forall i :: 0 <= i < |rows| ==> !SameKey(env, KeyOf(plan), rows[i], s)
  {
    hide BuildMerge;
    hide SameKey;
    hide Matches;
    UnmatchedMember(env, BuildMerge(plan), rows, stage, s);
    forall i | 0 <= i < |rows|
      ensures Matches(env, BuildMerge(plan), rows[i], s) <==> SameKey(env, KeyOf(plan), rows[i], s)
    {
      JoinIsSameKey(env, plan, rows[i], s);
    }
  }

  lemma MergedRowsParts(env: Collations, plan: Plan, rows: seq<Row>, stage: seq<Row>, defaults: nat -> Row)
    ensures var after := MergedRows(env, BuildMerge(plan), rows, stage, defaults);
      var added := Unmatched(env, BuildMerge(plan), rows, stage);
      && |after| == |rows| + |added|
      && (forall i :: 0 <= i < |rows| ==> after[i] == UpdatedRow(env, BuildMerge(plan), rows[i], stage))
      && (forall k, n :: 0 <= k < |added| ==>
            Get(after[|rows| + k], n) == if n in Names(plan.syncColumns) then Get(added[k], n) else Get(defaults(k), n))
  {
    hide UpdatedRow;
    hide Unmatched;
    hide Get;
    var after := MergedRows(env, BuildMerge(plan), rows, stage, defaults);
    var added := Unmatched(env, BuildMerge(plan), rows, stage);
    forall k, n | 0 <= k < |added|
      ensures Get(after[|rows| + k], n) == if n in Names(plan.syncColumns) then Get(added[k], n)
        else Get(defaults(k), n)
    {
      InsertEffect(plan.syncColumns, defaults(k), added[k], n);
    }
  }

  /** The rows after the MERGE, for every table, plan and set of staged rows with distinct keys. */
  lemma MergeRows(env: Collations, plan: Plan, rows: seq<Row>, stage: seq<Row>, defaults: nat -> Row)
    requires TypedAll(plan, rows) && TypedAll(plan, stage) && DistinctRows(env, KeyOf(plan), stage)
    ensures var after := MergedRows(env, BuildMerge(plan), rows, stage, defaults);
      var added := Unmatched(env, BuildMerge(plan), rows, stage);
      && |after| == |rows| + |added|
      && (forall i, j :: 0 <= i < |rows| && 0 <= j < |stage| && SameKey(env, KeyOf(plan), rows[i], stage[j]) ==>
            UpdatedFrom(env, plan, rows[i], after[i], stage[j]))
      && (forall i :: 0 <= i < |rows| && (forall s :: s in stage ==> !SameKey(env, KeyOf(plan), rows[i], s)) ==>
           after[i] == rows[i])
      && (forall k, n :: 0 <= k < |added| ==>
            Get(after[|rows| + k], n) == if n in Names(plan.syncColumns) then Get(added[k], n) else Get(defaults(k), n))
      && (forall s :: s in added <==> s in stage && forall i :: 0 <= i < |rows| ==>
           !SameKey(env, KeyOf(plan), rows[i], s))
  {
    hide MergedRows;
    hide Unmatched;
    hide TypedRow;
    hide Differs;
    hide UpdatedFrom;
    hide UpdatedRow;
    hide SameKey;
    hide BuildMerge;
    MergedRowsParts(env, plan, rows, stage, defaults);
    forall i, j | 0 <= i < |rows| && 0 <= j < |stage| && SameKey(env, KeyOf(plan), rows[i], stage[j])
      ensures UpdatedFrom(env, plan, rows[i], MergedRows(env, BuildMerge(plan), rows, stage, defaults)[i], stage[j])
    {
      RowEffect(env, plan, rows[i], stage, stage[j]);
    }
    forall i | 0 <= i < |rows| && (forall s :: s in stage ==> !SameKey(env, KeyOf(plan), rows[i], s))
      ensures MergedRows(env, BuildMerge(plan), rows, stage, defaults)[i] == rows[i]
    {
      RowUntouched(env, plan, rows[i], stage);
    }
    forall s ensures s in Unmatched(env, BuildMerge(plan), rows, stage) <==>
      s in stage && forall i :: 0 <= i < |rows| ==> !SameKey(env, KeyOf(plan), rows[i], s)
    {
      AddedRow(env, plan, rows, stage, s);
    }
  }

  // ---- Counting actions ----

  lemma {:induction false} CountAppend(a: seq<Action>, b: seq<Action>, x: Action)
    ensures CountOf(a + b, x) == CountOf(a, x) + CountOf(b, x)
  {
    if b == [] {
      assert a + b == a;
    } else {
      var n := |b| - 1;
      assert (a + b)[..|a + b| - 1] == a + b[..n];
      CountAppend(a, b[..n], x);
    }
  }

  lemma {:induction false} CountSame(n: nat, a: Action, x: Action)
    ensures CountOf(seq(n, _ => a), x) == if a == x then n else 0
  {
    if n > 0 {
      assert seq(n, _ => a)[..n - 1] == seq(n - 1, _ => a);
      CountSame(n - 1, a, x);
    }
  }

  /** How many target rows have a source row that really changes them. */
  function ChangedCount(env: Collations, plan: Plan, rows: seq<Row>, stage: seq<Row>): nat {
    if rows == [] then 0
    else
      var n := |rows| - 1;
      ChangedCount(env, plan, rows[..n], stage) + if ChangedBySome(env, plan, rows[n], stage) then 1 else 0
  }

  predicate ChangedBySome(env: Collations, plan: Plan, t: Row, stage: seq<Row>) {
    exists j :: 0 <= j < |stage| && Changes(env, plan, t, stage[j])
  }

  lemma UpdatedIffChanged(env: Collations, plan: Plan, t: Row, stage: seq<Row>)
    requires Typed(plan, t) && TypedAll(plan, stage)
    ensures UpdatesOf(env, BuildMerge(plan), t, stage) != [] <==> ChangedBySome(env, plan, t, stage)
  {
    var m := BuildMerge(plan);
    var from := UpdatesOf(env, m, t, stage);
    if from != [] {
      UpdatesOfMember(env, m, t, stage, from[0]);
      var j :| 0 <= j < |stage| && stage[j] == from[0];
      UpdateFires(env, plan, t, stage[j]);
    }
    if j :| 0 <= j < |stage| && Changes(env, plan, t, stage[j]) {
      UpdateFires(env, plan, t, stage[j]);
      UpdatesOfMember(env, m, t, stage, stage[j]);
    }
  }

  lemma {:induction false} UpdateActionsCounted(env: Collations, plan: Plan, rows: seq<Row>, stage: seq<Row>)
    requires TypedAll(plan, rows) && TypedAll(plan, stage)
    ensures CountOf(UpdateActions(env, BuildMerge(plan), rows, stage), Updated) == ChangedCount(env, plan, rows, stage)
    ensures CountOf(UpdateActions(env, BuildMerge(plan), rows, stage), Inserted) == 0
  {
    if rows != [] {
      var n := |rows| - 1;
      var m := BuildMerge(plan);
      assert TypedAll(plan, rows[..n]) by {
        assert forall i :: 0 <= i < n ==> rows[..n][i] == rows[i];
      }
      UpdateActionsCounted(env, plan, rows[..n], stage);
      UpdatedIffChanged(env, plan, rows[n], stage);
      var last := if UpdatesOf(env, m, rows[n], stage) != [] then [Updated] else [];
      CountAppend(UpdateActions(env, m, rows[..n], stage), last, Updated);
      CountAppend(UpdateActions(env, m, rows[..n], stage), last, Inserted);
      assert last != [] ==> last[..0] == [];
    }
  }

  /** The statement reports one insert per unmatched source row and one update per really changed target row. */
  lemma ActionsCounted(env: Collations, plan: Plan, t: Table, stage: seq<Row>, identityInsert: bool,
      defaults: nat -> Row)
    requires TypedAll(plan, t.rows) && TypedAll(plan, stage)
    ensures var r := RunMerge(env, BuildMerge(plan), t, stage, identityInsert, defaults);
      r.Ok? ==>
        CountOf(r.value.1, Inserted) == |Unmatched(env, BuildMerge(plan), t.rows, stage)|
        && CountOf(r.value.1, Updated) == ChangedCount(env, plan, t.rows, stage)
  {
    hide Satisfies;
    hide IdentityAllowed;
    hide MergedRows;
    hide UpdatedOnce;
    hide Distinct;
    var m := BuildMerge(plan);
    var updates, inserts :=
      UpdateActions(env, m, t.rows, stage), seq(|Unmatched(env, m, t.rows, stage)|, _ => Inserted);
    UpdateActionsCounted(env, plan, t.rows, stage);
    CountAppend(updates, inserts, Inserted);
    CountAppend(updates, inserts, Updated);
    CountSame(|inserts|, Inserted, Inserted);
    CountSame(|inserts|, Inserted, Updated);
  }

  // ---- Keys that are distinct ----

  lemma NoDoubleUpdate(env: Collations, plan: Plan, rows: seq<Row>, stage: seq<Row>)
    requires TypedAll(plan, rows) && TypedAll(plan, stage) && DistinctRows(env, KeyOf(plan), stage)
    ensures UpdatedOnce(env, BuildMerge(plan), rows, stage)
  {
    UpdatedTwiceIff(env, plan, rows, stage);
    forall i, j, k | 0 <= i < |rows| && 0 <= j < k < |stage|
      ensures !(Changes(env, plan, rows[i], stage[j]) && Changes(env, plan, rows[i], stage[k]))
    {
      KeysApart(env, KeyOf(plan), stage, rows[i], j, k);
    }
  }

  // ---- Running it again ----

  lemma SameKeySelf(env: Collations, names: seq<string>, a: Row, s: Row)
    requires NonNullKey(names, s) && forall i :: 0 <= i < |names| ==> Get(a, names[i]) == Get(s, names[i])
    ensures SameKey(env, names, a, s)
  {
    forall i | 0 <= i < |names| ensures SamePart(env, names[i], a, s) {
      assert Get(a, names[i]) == Get(s, names[i]);
    }
  }

  lemma KeyInSync(plan: Plan, columns: seq<ColumnMetadata>, n: string)
    requires WellFormed(plan, columns) && n in KeyOf(plan)
    ensures n in Names(plan.syncColumns)
  {
    var i :| 0 <= i < |plan.primaryKeyColumns| && plan.primaryKeyColumns[i].name == n;
    NameOfMember(plan.syncColumns, plan.primaryKeyColumns[i]);
  }

  /** A row inserted from a source row has its key and agrees with it. */
  lemma InsertedAgrees(env: Collations, plan: Plan, columns: seq<ColumnMetadata>, a: Row, s: Row)
    requires WellFormed(plan, columns) && NonNullKey(KeyOf(plan), s)
    requires forall n :: n in Names(plan.syncColumns) ==> Get(a, n) == Get(s, n)
    ensures SameKey(env, KeyOf(plan), a, s) && !Differs(env, plan, a, s)
    ensures forall other :: SameKey(env, KeyOf(plan), a, other) <==> SameKey(env, KeyOf(plan), s, other)
  {
    forall i | 0 <= i < |KeyOf(plan)| ensures Get(a, KeyOf(plan)[i]) == Get(s, KeyOf(plan)[i]) {
      KeyInSync(plan, columns, KeyOf(plan)[i]);
    }
    SameKeySelf(env, KeyOf(plan), a, s);
    forall other ensures SameKey(env, KeyOf(plan), a, other) <==> SameKey(env, KeyOf(plan), s, other) {
      SameKeyByParts(env, KeyOf(plan), a, s, other);
    }
    forall c | c in plan.syncColumns ensures Agree(env, c, a, s) {
      NameOfMember(plan.syncColumns, c);
    }
  }

  /** After the MERGE no row is changed by any source row, and every source row has its target row. */
  lemma NothingLeft(env: Collations, plan: Plan, columns: seq<ColumnMetadata>, rows: seq<Row>, stage: seq<Row>,
      defaults: nat -> Row, i: nat, j: nat)
    requires WellFormed(plan, columns) && TypedAll(plan, rows) && TypedAll(plan, stage)
    requires DistinctRows(env, KeyOf(plan), stage) && forall k :: 0 <= k < |stage| ==> NonNullKey(KeyOf(plan), stage[k])
    requires i < |MergedRows(env, BuildMerge(plan), rows, stage, defaults)| && j < |stage|
    ensures !Changes(env, plan, MergedRows(env, BuildMerge(plan), rows, stage, defaults)[i], stage[j])
  {
    hide MergedRows;
    hide Differs;
    hide UpdatedFrom;
    hide TypedRow;
    hide SamePart;
    hide BuildMerge;
    hide WellFormed;
    var after := MergedRows(env, BuildMerge(plan), rows, stage, defaults);
    var added := Unmatched(env, BuildMerge(plan), rows, stage);
    MergeRows(env, plan, rows, stage, defaults);
    if i < |rows| {
      if k :| 0 <= k < |stage| && SameKey(env, KeyOf(plan), rows[i], stage[k]) {
        KeySurvives(env, plan, rows[i], after[i], stage[k], stage[j]);
        if SameKey(env, KeyOf(plan), after[i], stage[j]) {
          OneRowPerKey(env, KeyOf(plan), stage, rows[i], j, k);
          UpdatedAgrees(env, plan, rows[i], after[i], stage[j]);
        }
      } else {
        assert forall s :: s in stage ==> !SameKey(env, KeyOf(plan), rows[i], s);
        assert after[i] == rows[i];
      }
    } else {
      var s := added[i - |rows|];
      assert s in added;
      assert after[i] == after[|rows| + (i - |rows|)];
      AddedUnchanged(env, plan, columns, stage, after[i], s, j);
    }
  }

  /** A row inserted from a stage row is changed by no stage row. */
  lemma AddedUnchanged(env: Collations, plan: Plan, columns: seq<ColumnMetadata>, stage: seq<Row>, a: Row, s: Row,
      j: nat)
    requires WellFormed(plan, columns) && DistinctRows(env, KeyOf(plan), stage) && j < |stage| && s in stage
    requires NonNullKey(KeyOf(plan), s) && forall n :: n in Names(plan.syncColumns) ==> Get(a, n) == Get(s, n)
    ensures !Changes(env, plan, a, stage[j])
  {
    hide Differs;
    hide SamePart;
    hide WellFormed;
    var k :| 0 <= k < |stage| && stage[k] == s;
    InsertedAgrees(env, plan, columns, a, s);
    if SameKey(env, KeyOf(plan), a, stage[j]) {
      SameKeySelf(env, KeyOf(plan), s, s);
      OneRowPerKey(env, KeyOf(plan), stage, s, j, k);
    }
  }

  predicate HasTargetRow(env: Collations, plan: Plan, rows: seq<Row>, s: Row) {
    exists i :: 0 <= i < |rows| && SameKey(env, KeyOf(plan), rows[i], s)
  }

  lemma EverySourceRowMatched(env: Collations, plan: Plan, columns: seq<ColumnMetadata>, rows: seq<Row>,
      stage: seq<Row>, defaults: nat -> Row, j: nat)
    requires WellFormed(plan, columns) && TypedAll(plan, rows) && TypedAll(plan, stage)
    requires DistinctRows(env, KeyOf(plan), stage) && forall k :: 0 <= k < |stage| ==> NonNullKey(KeyOf(plan), stage[k])
    requires j < |stage|
    ensures var after := MergedRows(env, BuildMerge(plan), rows, stage, defaults);
      HasTargetRow(env, plan, after, stage[j])
  {
    hide MergedRows;
    hide UpdatedFrom;
    hide TypedRow;
    hide SamePart;
    hide BuildMerge;
    hide WellFormed;
    var after := MergedRows(env, BuildMerge(plan), rows, stage, defaults);
    var added := Unmatched(env, BuildMerge(plan), rows, stage);
    MergeRows(env, plan, rows, stage, defaults);
    if i :| 0 <= i < |rows| && SameKey(env, KeyOf(plan), rows[i], stage[j]) {
      KeySurvives(env, plan, rows[i], after[i], stage[j], stage[j]);
    } else {
      assert stage[j] in added;
      var k :| 0 <= k < |added| && added[k] == stage[j];
      InsertedAgrees(env, plan, columns, after[|rows| + k], stage[j]);
    }
  }
}
