/** What the generated MERGE does to the target table. */
module MergeTheory {
  import opened Prelude
  import opened SqlServer
  import opened MergePlan

  // ---- Conditions mean what they should ----

  predicate BothNullOrEqual(env: Collations, c: Collation, x: Value, y: Value) {
    (x.Null? && y.Null?) || (!x.Null? && !y.Null? && Fold(env, c, x) == Fold(env, c, y))
  }

  /** Two rows agree on a column up to the column's own equality, NULL agreeing with NULL only. */
  predicate Agree(env: Collations, c: ColumnMetadata, t: Row, s: Row) {
    var x, y := Get(t, c.name), Get(s, c.name);
    if Lower(c.typeName) in {"char", "varchar", "text", "nchar", "nvarchar", "ntext"}
    then BothNullOrEqual(env, DatabaseDefault, x, y)
    else if Lower(c.typeName) == "bit" then x == y
    else BothNullOrEqual(env, OfColumn(c.name), x, y)
  }

  /** A bit column holds bits. */
  predicate TypedRow(columns: seq<ColumnMetadata>, r: Row) {
    forall i :: 0 <= i < |columns| && Lower(columns[i].typeName) == "bit" ==>
      Get(r, columns[i].name).Null? || Get(r, columns[i].name).Bit?
  }

  predicate TypedColumn(c: ColumnMetadata, r: Row) {
    Lower(c.typeName) == "bit" ==> Get(r, c.name).Null? || Get(r, c.name).Bit?
  }

  /** The difference condition is true exactly when the column really differs; it never depends on UNKNOWN. */
  lemma DifferenceIsReal(env: Collations, c: ColumnMetadata, t: Row, s: Row)
    requires TypedColumn(c, t) && TypedColumn(c, s)
    ensures Holds(env, Difference(c), t, s) == True <==> !Agree(env, c, t, s)
  {
    var to, so := Column(Target, c.name), Column(Source, c.name);
    if Lower(c.typeName) in TextTypeNames {
      NullAwareDifference(env, c.name, Collated(to), Collated(so), t, s);
    } else if Lower(c.typeName) != "bit" {
      NullAwareDifference(env, c.name, to, so, t, s);
    } else {
      BitDifference(env, c.name, t, s);
    }
  }

  lemma BitDifference(env: Collations, name: string, t: Row, s: Row)
    requires (Get(t, name).Null? || Get(t, name).Bit?) && (Get(s, name).Null? || Get(s, name).Bit?)
    ensures Holds(env,
      NotEqual(IsNullOr(CastInt(Column(Target, name)), -1), IsNullOr(CastInt(Column(Source, name)), -1)), t, s)
      == Of(Get(t, name) != Get(s, name))
  {
    var to, so := Column(Target, name), Column(Source, name);
    assert Evaluate(to, t, s) == Get(t, name) && Evaluate(so, t, s) == Get(s, name);
    assert Evaluate(CastInt(to), t, s)
      == (if Get(t, name).Null? then Null else Number(if Get(t, name).b then 1 else 0));
    assert Evaluate(CastInt(so), t, s)
      == (if Get(s, name).Null? then Null else Number(if Get(s, name).b then 1 else 0));
  }

  lemma NullAwareDifference(env: Collations, name: string, left: Operand, right: Operand, t: Row, s: Row)
    requires Evaluate(left, t, s) == Get(t, name) && Evaluate(right, t, s) == Get(s, name)
    requires CollationOf(left) == CollationOf(right)
    ensures var to, so := Column(Target, name), Column(Source, name);
      Holds(env, Or([And([IsNull(to), IsNotNull(so)]), And([IsNotNull(to), IsNull(so)]), NotEqual(left, right)]), t, s)
        == True
      <==> !BothNullOrEqual(env, CollationOf(left), Get(t, name), Get(s, name))
  {
    var to, so := Column(Target, name), Column(Source, name);
    var cs := [And([IsNull(to), IsNotNull(so)]), And([IsNotNull(to), IsNull(so)]), NotEqual(left, right)];
    AnyTrue(env, cs, t, s);
    BothTrue(env, IsNull(to), IsNotNull(so), t, s);
    BothTrue(env, IsNotNull(to), IsNull(so), t, s);
    assert Holds(env, Or(cs), t, s) == True <==>
      Holds(env, cs[0], t, s) == True || Holds(env, cs[1], t, s) == True || Holds(env, cs[2], t, s) == True;
  }

  lemma BothTrue(env: Collations, a: Condition, b: Condition, t: Row, s: Row)
    ensures Holds(env, And([a, b]), t, s) == True <==> Holds(env, a, t, s) == True && Holds(env, b, t, s) == True
  {
    AllTrue(env, [a, b], t, s);
    var cs := [a, b];
    assert cs[0] == a && cs[1] == b;
  }

  lemma JoinIsSameKey(env: Collations, plan: Plan, t: Row, s: Row)
    ensures Matches(env, BuildMerge(plan), t, s) <==> SameKey(env, Names(plan.primaryKeyColumns), t, s)
  {
    hide UpdatableColumns;
    hide Difference;
    hide Fold;
    var keys := plan.primaryKeyColumns;
    var cs := Map(Join, keys);
    AllTrue(env, cs, t, s);
    forall i | 0 <= i < |keys| ensures Holds(env, cs[i], t, s) == True <==> SamePart(env, Names(keys)[i], t, s) {
      assert cs[i] == Join(keys[i]);
    }
  }

  /** Some column outside the key really differs. */
  predicate Differs(env: Collations, plan: Plan, t: Row, s: Row) {
    exists c :: c in plan.syncColumns && c.name !in Names(plan.primaryKeyColumns) && !Agree(env, c, t, s)
  }

  predicate Typed(plan: Plan, r: Row) {
    TypedRow(plan.syncColumns, r)
  }

  lemma TypedUpdatable(plan: Plan, r: Row, i: nat)
    requires Typed(plan, r) && i < |UpdatableColumns(plan)|
    ensures TypedColumn(UpdatableColumns(plan)[i], r)
  {
    var c := UpdatableColumns(plan)[i];
    assert c in UpdatableColumns(plan);
    var k :| 0 <= k < |plan.syncColumns| && plan.syncColumns[k] == c;
  }

  lemma SomeUpdatable(env: Collations, plan: Plan, t: Row, s: Row)
    ensures Differs(env, plan, t, s) <==>
      exists i :: 0 <= i < |UpdatableColumns(plan)| && !Agree(env, UpdatableColumns(plan)[i], t, s)
  {
    hide Agree;
    var updatable := UpdatableColumns(plan);
    if c :| c in plan.syncColumns && c.name !in Names(plan.primaryKeyColumns) && !Agree(env, c, t, s) {
      assert c in updatable;
    }
    if i :| 0 <= i < |updatable| && !Agree(env, updatable[i], t, s) {
      assert updatable[i] in updatable;
    }
  }

  /** A row is updated from a source row exactly when the keys match and some column really differs. */
  lemma UpdateFires(env: Collations, plan: Plan, t: Row, s: Row)
    requires Typed(plan, t) && Typed(plan, s)
    ensures UpdatesFrom(env, BuildMerge(plan), t, s) <==>
      SameKey(env, Names(plan.primaryKeyColumns), t, s) && Differs(env, plan, t, s)
  {
    JoinIsSameKey(env, plan, t, s);
    hide SameKey;
    hide Agree;
    hide Difference;
    hide Typed;
    var updatable := UpdatableColumns(plan);
    assert Differs(env, plan, t, s) <==> exists i :: 0 <= i < |updatable| && !Agree(env, updatable[i], t, s) by {
      SomeUpdatable(env, plan, t, s);
    }
    hide UpdatableColumns;
    hide Differs;
    var cs := Map(Difference, updatable);
    AnyTrue(env, cs, t, s);
    forall i | 0 <= i < |updatable| ensures Holds(env, cs[i], t, s) == True <==> !Agree(env, updatable[i], t, s) {
      TypedUpdatable(plan, t, i);
      TypedUpdatable(plan, s, i);
      DifferenceIsReal(env, updatable[i], t, s);
    }
  }

  // ---- Keys ----

  lemma SameKeySymmetric(env: Collations, names: seq<string>, a: Row, b: Row)
    requires SameKey(env, names, a, b)
    ensures SameKey(env, names, b, a)
  {
    forall i | 0 <= i < |names| ensures SamePart(env, names[i], b, a) {
      assert SamePart(env, names[i], a, b);
    }
  }

  lemma SameKeyTransitive(env: Collations, names: seq<string>, a: Row, b: Row, c: Row)
    requires SameKey(env, names, a, b) && SameKey(env, names, b, c)
    ensures SameKey(env, names, a, c)
  {
    forall i | 0 <= i < |names| ensures SamePart(env, names[i], a, c) {
      assert SamePart(env, names[i], a, b) && SamePart(env, names[i], b, c);
    }
  }

  predicate NonNullKey(names: seq<string>, r: Row) {
    forall i :: 0 <= i < |names| ==> !Get(r, names[i]).Null?
  }

  predicate DistinctRows(env: Collations, names: seq<string>, rows: seq<Row>) {
    forall i, j :: 0 <= i < j < |rows| ==> !SameKey(env, names, rows[i], rows[j])
  }

  /** Rows that agree on the key with one row are one row. */
  lemma OneRowPerKey(env: Collations, names: seq<string>, rows: seq<Row>, r: Row, i: nat, j: nat)
    requires DistinctRows(env, names, rows) && i < |rows| && j < |rows|
    requires SameKey(env, names, r, rows[i]) && SameKey(env, names, r, rows[j])
    ensures i == j
  {
    SameKeySymmetric(env, names, r, rows[i]);
    SameKeyTransitive(env, names, rows[i], r, rows[j]);
    SameKeySymmetric(env, names, rows[i], rows[j]);
  }

  /** No row agrees on the key with two different ones of them. */
  lemma KeysApart(env: Collations, names: seq<string>, rows: seq<Row>, r: Row, j: nat, k: nat)
    requires DistinctRows(env, names, rows) && j < k < |rows|
    ensures !(SameKey(env, names, r, rows[j]) && SameKey(env, names, r, rows[k]))
  {
    assert !SameKey(env, names, rows[j], rows[k]);
    if SameKey(env, names, r, rows[j]) {
      SameKeySymmetric(env, names, r, rows[j]);
      forall x | SameKey(env, names, r, x) ensures SameKey(env, names, rows[j], x) {
        SameKeyTransitive(env, names, rows[j], r, x);
      }
    }
  }

  // ---- What the server collects ----

  lemma {:induction false} UpdatesOfMember(env: Collations, m: Merge, t: Row, stage: seq<Row>, s: Row)
    ensures s in UpdatesOf(env, m, t, stage) <==> s in stage && UpdatesFrom(env, m, t, s)
  {
    if stage != [] {
      UpdatesOfMember(env, m, t, stage[1..], s);
      assert stage == [stage[0]] + stage[1..];
    }
  }

  /** More than one update of a row needs two source rows that update it. */
  lemma {:induction false} UpdatesOfTwice(env: Collations, m: Merge, t: Row, stage: seq<Row>)
    ensures |UpdatesOf(env, m, t, stage)| > 1 <==>
      exists j, k :: 0 <= j < k < |stage| && UpdatesFrom(env, m, t, stage[j]) && UpdatesFrom(env, m, t, stage[k])
  {
    if stage != [] {
      var rest := stage[1..];
      UpdatesOfTwice(env, m, t, rest);
      var more := UpdatesOf(env, m, t, rest);
      if UpdatesFrom(env, m, t, stage[0]) && more != [] {
        UpdatesOfMember(env, m, t, rest, more[0]);
        var k :| 0 <= k < |rest| && rest[k] == more[0];
        assert stage[k + 1] == more[0];
      }
      if |more| > 1 {
        var j, k :| 0 <= j < k < |rest| && UpdatesFrom(env, m, t, rest[j]) && UpdatesFrom(env, m, t, rest[k]);
        assert stage[j + 1] == rest[j] && stage[k + 1] == rest[k];
      }
      if j, k :| 0 <= j < k < |stage| && UpdatesFrom(env, m, t, stage[j]) && UpdatesFrom(env, m, t, stage[k]) {
        assert rest[k - 1] == stage[k];
        UpdatesOfMember(env, m, t, rest, stage[k]);
        if j > 0 {
          assert rest[j - 1] == stage[j];
        }
      }
    }
  }

  /** The server rejects the statement exactly when two source rows would both change one target row. */
  lemma UpdatedTwiceIff(env: Collations, plan: Plan, rows: seq<Row>, stage: seq<Row>)
    requires (forall i :: 0 <= i < |rows| ==> Typed(plan, rows[i]))
      && (forall j :: 0 <= j < |stage| ==> Typed(plan, stage[j]))
    ensures UpdatedOnce(env, BuildMerge(plan), rows, stage) <==>
      forall i, j, k :: 0 <= i < |rows| && 0 <= j < k < |stage| ==>
        !(Changes(env, plan, rows[i], stage[j]) && Changes(env, plan, rows[i], stage[k]))
  {
    forall i, j | 0 <= i < |rows| && 0 <= j < |stage|
      ensures UpdatesFrom(env, BuildMerge(plan), rows[i], stage[j]) <==> Changes(env, plan, rows[i], stage[j])
    {
      UpdateFires(env, plan, rows[i], stage[j]);
    }
    forall i | 0 <= i < |rows|
      ensures |UpdatesOf(env, BuildMerge(plan), rows[i], stage)| > 1 <==>
        exists j, k :: 0 <= j < k < |stage| && Changes(env, plan, rows[i], stage[j])
          && Changes(env, plan, rows[i], stage[k])
    {
      UpdatesOfTwice(env, BuildMerge(plan), rows[i], stage);
      if j, k :|
          0 <= j < k < |stage| && Changes(env, plan, rows[i], stage[j]) && Changes(env, plan, rows[i], stage[k]) {
        assert UpdatesFrom(env, BuildMerge(plan), rows[i], stage[j])
          && UpdatesFrom(env, BuildMerge(plan), rows[i], stage[k]);
      }
    }
  }

  /** The source row has the key of the target row and really differs from it. */
  predicate Changes(env: Collations, plan: Plan, t: Row, s: Row) {
    SameKey(env, Names(plan.primaryKeyColumns), t, s) && Differs(env, plan, t, s)
  }
}
