/** From column metadata to a synchronisation plan, and from a plan to its MERGE statement. */
module MergePlan {
  import opened Prelude
  import opened Ordering
  import opened Strings
  import opened SqlServer

  datatype Override = Override(columnNames: Option<seq<string>>, primaryKeyColumns: Option<seq<string>>)

  datatype Plan = Plan(
    sourceColumns: seq<ColumnMetadata>, targetColumns: seq<ColumnMetadata>,
    syncColumns: seq<ColumnMetadata>, primaryKeyColumns: seq<ColumnMetadata>)

  datatype PlanError =
    | NoCommonColumns
    | ColumnsNotFound(names: seq<string>)
    | KeyOutsideSyncColumns
    | NoSharedPrimaryKey
    | SourceKeyMissing(names: seq<string>)

  function NameOf(c: ColumnMetadata): string { c.name }

  function Names(columns: seq<ColumnMetadata>): seq<string> {
    Map(NameOf, columns)
  }

  /** {column.name: column}: a later column of the same name wins. */
  function LookupByName(columns: seq<ColumnMetadata>): (m: map<string, ColumnMetadata>)
    ensures forall n :: n in m <==> n in Names(columns)
    ensures forall n :: n in m ==> m[n] in columns && m[n].name == n
  {
    if columns == [] then map[] else
      var last := |columns| - 1;
      assert columns == columns[..last] + [columns[last]];
      assert Names(columns) == Names(columns[..last]) + [columns[last].name];
      LookupByName(columns[..last])[columns[last].name := columns[last]]
  }

  function Filter<T(!new)>(p: T -> bool, s: seq<T>): (r: seq<T>)
    ensures forall x :: x in r <==> x in s && p(x)
  {
    if s == [] then [] else (if p(s[0]) then [s[0]] else []) + Filter(p, s[1..])
  }

  type Columns = map<string, ColumnMetadata>

  function MissingNames(requested: seq<string>, source: Columns, target: Columns): seq<string> {
    Filter((n: string) => n !in source || n !in target, requested)
  }

  /** An override that is absent or empty does not count. */
  predicate Given(names: Option<seq<string>>) {
    names.Some? && names.value != []
  }

  function CommonColumns(source: Columns, targetColumns: seq<ColumnMetadata>): (r: seq<ColumnMetadata>)
    ensures forall c :: c in r <==> c in targetColumns && c.name in source
  {
    Filter((c: ColumnMetadata) => c.name in source, targetColumns)
  }

  function SelectedNames(source: Columns, target: Columns, targetColumns: seq<ColumnMetadata>,
      override: Option<Override>)
    : Result<seq<string>, PlanError>
  {
    if override.Some? && Given(override.value.columnNames) then
      var names := override.value.columnNames.value;
      if MissingNames(names, source, target) != [] then Err(ColumnsNotFound(MissingNames(names, source, target)))
      else Ok(names)
    else
      var common := Names(CommonColumns(source, targetColumns));
      if common == [] then Err(NoCommonColumns) else Ok(common)
  }

  /** Sorted by (ordinal or 0, name). */
  predicate KeyOrder(a: ColumnMetadata, b: ColumnMetadata) {
    var m := if a.primaryKeyOrdinal.Some? then a.primaryKeyOrdinal.value else 0;
    var n := if b.primaryKeyOrdinal.Some? then b.primaryKeyOrdinal.value else 0;
    m < n || (m == n && !Less(b.name, a.name))
  }

  function KeyColumns(targetColumns: seq<ColumnMetadata>, selected: seq<string>): (r: seq<ColumnMetadata>)
    ensures forall c :: c in r <==> c in targetColumns && c.isPrimaryKey && c.name in selected
  {
    SortSameElements(KeyOrder, targetColumns);
    Filter((c: ColumnMetadata) => c.isPrimaryKey && c.name in selected, Sort(KeyOrder, targetColumns))
  }

  function Unmarked(source: Columns, names: seq<string>): (r: seq<string>)
    ensures forall n :: n in r <==> n in names && n in source && !source[n].isPrimaryKey
  {
    Filter((n: string) => n in source && !source[n].isPrimaryKey, names)
  }

  /** Column names are distinct within a table, so its lookup has the columns themselves as values. */
  function PrimaryKeyNames(source: Columns, target: Columns, targetColumns: seq<ColumnMetadata>, selected: seq<string>,
      override: Option<Override>)
    : Result<seq<string>, PlanError>
  {
    if override.Some? && Given(override.value.primaryKeyColumns) then
      var names := override.value.primaryKeyColumns.value;
      if MissingNames(names, source, target) != [] then Err(ColumnsNotFound(MissingNames(names, source, target)))
      else if Filter((n: string) => n !in selected, names) != [] then Err(KeyOutsideSyncColumns)
      else Ok(names)
    else
      var names := Names(KeyColumns(targetColumns, selected));
      if names == [] then Err(NoSharedPrimaryKey)
      else
        var missing := Unmarked(source, names);
        if missing != [] then Err(SourceKeyMissing(missing)) else Ok(names)
  }

  function Select(lookup: Columns, names: seq<string>): (r: seq<ColumnMetadata>)
    requires forall n :: n in names ==> n in lookup
    ensures |r| == |names| && forall i :: 0 <= i < |names| ==> r[i] == lookup[names[i]]
  {
    if names == [] then [] else [lookup[names[0]]] + Select(lookup, names[1..])
  }

  /** SqlServerSyncPlanBuilder.build. */
  function BuildPlan(sourceColumns: seq<ColumnMetadata>, targetColumns: seq<ColumnMetadata>, override: Option<Override>)
    : Result<Plan, PlanError>
  {
    var source, target := LookupByName(sourceColumns), LookupByName(targetColumns);
    var selected := SelectedNames(source, target, targetColumns, override);
    if selected.Err? then Err(selected.error) else
      SelectedKnown(source, target, targetColumns, override);
      var keys := PrimaryKeyNames(source, target, targetColumns, selected.value, override);
      if keys.Err? then Err(keys.error) else
        KeysKnown(source, target, targetColumns, selected.value, override);
        Ok(PlanOf(source, target, selected.value, keys.value))
  }

  function PlanOf(source: Columns, target: Columns, selected: seq<string>, keys: seq<string>): Plan
    requires forall n :: n in selected ==> n in source && n in target
    requires forall n :: n in keys ==> n in target
  {
    Plan(Select(source, selected), Select(target, selected), Select(target, selected), Select(target, keys))
  }

  lemma SelectedKnown(source: Columns, target: Columns, targetColumns: seq<ColumnMetadata>, override: Option<Override>)
    requires target == LookupByName(targetColumns)
    ensures var r := SelectedNames(source, target, targetColumns, override);
      r.Ok? ==> r.value != [] && forall n :: n in r.value ==> n in source && n in target
  {
    var r := SelectedNames(source, target, targetColumns, override);
    if r.Ok? {
      if override.Some? && Given(override.value.columnNames) {
        NothingMissing(r.value, source, target);
      } else {
        var common := CommonColumns(source, targetColumns);
        forall n | n in r.value ensures n in source && n in target {
          var i :| 0 <= i < |common| && common[i].name == n;
          assert common[i] in common;
          NameOfMember(targetColumns, common[i]);
        }
      }
    }
  }

  lemma NothingMissing(names: seq<string>, source: Columns, target: Columns)
    requires MissingNames(names, source, target) == []
    ensures forall n :: n in names ==> n in source && n in target
  {
    forall n | n in names ensures n in source && n in target {
      assert n !in MissingNames(names, source, target);
    }
  }

  lemma NameOfMember(columns: seq<ColumnMetadata>, c: ColumnMetadata)
    requires c in columns
    ensures c.name in Names(columns)
  {
    var i :| 0 <= i < |columns| && columns[i] == c;
    assert Names(columns)[i] == c.name;
  }

  lemma SharedKeysKnown(targetColumns: seq<ColumnMetadata>, selected: seq<string>)
    ensures forall n :: n in Names(KeyColumns(targetColumns, selected)) ==>
      n in selected && n in LookupByName(targetColumns)
  {
    var keys := KeyColumns(targetColumns, selected);
    forall n | n in Names(keys) ensures n in selected && n in LookupByName(targetColumns) {
      var i :| 0 <= i < |keys| && keys[i].name == n;
      assert keys[i] in keys;
      NameOfMember(targetColumns, keys[i]);
    }
  }

  lemma KeysKnown(source: Columns, target: Columns, targetColumns: seq<ColumnMetadata>, selected: seq<string>,
      override: Option<Override>)
    requires target == LookupByName(targetColumns)
    ensures var r := PrimaryKeyNames(source, target, targetColumns, selected, override);
      r.Ok? ==> r.value != [] && forall n :: n in r.value ==> n in selected && n in target
  {
    var r := PrimaryKeyNames(source, target, targetColumns, selected, override);
    if r.Ok? {
      if override.Some? && Given(override.value.primaryKeyColumns) {
        NothingMissing(r.value, source, target);
        forall n | n in r.value ensures n in selected {
          assert n !in Filter((n: string) => n !in selected, r.value);
        }
      } else {
        SharedKeysKnown(targetColumns, selected);
      }
    }
  }

  // ---- Plan properties ----

  /** updatable_columns: the columns to synchronise outside the key. */
  function UpdatableColumns(plan: Plan): seq<ColumnMetadata> {
    Filter((c: ColumnMetadata) => c.name !in Names(plan.primaryKeyColumns), plan.syncColumns)
  }

  /** identity_primary_key, as far as the caller looks: whether there is one. */
  predicate HasIdentityKey(plan: Plan) {
    exists i :: 0 <= i < |plan.primaryKeyColumns| && plan.primaryKeyColumns[i].isIdentity
  }

  ghost predicate WellFormed(plan: Plan, targetColumns: seq<ColumnMetadata>) {
    && plan.syncColumns != [] && plan.primaryKeyColumns != []
    && (forall c :: c in plan.syncColumns ==> c in targetColumns)
    && (forall c :: c in plan.primaryKeyColumns ==> c in plan.syncColumns)
    && |plan.sourceColumns| == |plan.syncColumns|
    && plan.targetColumns == plan.syncColumns
    && (forall i :: 0 <= i < |plan.syncColumns| ==> plan.sourceColumns[i].name == plan.syncColumns[i].name)
  }

  lemma SelectMember(lookup: Columns, names: seq<string>, n: string)
    requires (forall k :: k in names ==> k in lookup) && n in names
    ensures lookup[n] in Select(lookup, names)
  {
    var i :| 0 <= i < |names| && names[i] == n;
    assert Select(lookup, names)[i] == lookup[n];
  }

  lemma SelectedFrom(lookup: Columns, names: seq<string>, columns: seq<ColumnMetadata>)
    requires lookup == LookupByName(columns) && forall n :: n in names ==> n in lookup
    ensures forall c :: c in Select(lookup, names) ==> c in columns
  {
    hide LookupByName;
    forall c | c in Select(lookup, names) ensures c in columns {
      var i :| 0 <= i < |names| && Select(lookup, names)[i] == c;
      assert names[i] in names;
    }
  }

  lemma PlanOfWellFormed(sourceColumns: seq<ColumnMetadata>, targetColumns: seq<ColumnMetadata>, selected: seq<string>,
      keys: seq<string>)
    requires forall n :: n in selected ==> n in LookupByName(sourceColumns) && n in LookupByName(targetColumns)
    requires selected != [] && keys != [] && forall n :: n in keys ==> n in selected
    ensures var plan := PlanOf(LookupByName(sourceColumns), LookupByName(targetColumns), selected, keys);
      WellFormed(plan, targetColumns) && forall c :: c in plan.sourceColumns ==> c in sourceColumns
  {
    hide LookupByName;
    var source, target := LookupByName(sourceColumns), LookupByName(targetColumns);
    var plan := PlanOf(source, target, selected, keys);
    forall c | c in plan.primaryKeyColumns ensures c in plan.syncColumns {
      var i :| 0 <= i < |keys| && plan.primaryKeyColumns[i] == c;
      assert keys[i] in keys;
      SelectMember(target, selected, keys[i]);
    }
    SelectedFrom(target, selected, targetColumns);
    SelectedFrom(source, selected, sourceColumns);
    forall i | 0 <= i < |selected| ensures plan.sourceColumns[i].name == plan.syncColumns[i].name {
      assert selected[i] in selected;
    }
  }

  /** Every plan that is built synchronises shared columns and joins on some of them. */
  lemma PlanIsWellFormed(sourceColumns: seq<ColumnMetadata>, targetColumns: seq<ColumnMetadata>,
      override: Option<Override>)
    requires BuildPlan(sourceColumns, targetColumns, override).Ok?
    ensures var plan := BuildPlan(sourceColumns, targetColumns, override).value;
      && WellFormed(plan, targetColumns)
      && forall c :: c in plan.sourceColumns ==> c in sourceColumns
  {
    hide LookupByName;
    hide SelectedNames;
    hide PrimaryKeyNames;
    hide PlanOf;
    hide WellFormed;
    var source, target := LookupByName(sourceColumns), LookupByName(targetColumns);
    SelectedKnown(source, target, targetColumns, override);
    var selected := SelectedNames(source, target, targetColumns, override).value;
    KeysKnown(source, target, targetColumns, selected, override);
    PlanOfWellFormed(sourceColumns, targetColumns, selected,
      PrimaryKeyNames(source, target, targetColumns, selected, override).value);
  }

  /** A key column of the target that the source has too. */
  predicate SharedKey(sourceColumns: seq<ColumnMetadata>, targetColumns: seq<ColumnMetadata>, c: ColumnMetadata) {
    c in targetColumns && c.isPrimaryKey && c.name in Names(sourceColumns)
  }

  /** The source marks every key column it shares with the target as its own key column. */
  ghost predicate KeysAgree(sourceColumns: seq<ColumnMetadata>, targetColumns: seq<ColumnMetadata>) {
    forall s, c :: s in sourceColumns && SharedKey(sourceColumns, targetColumns, c) && s.name == c.name ==>
      s.isPrimaryKey
  }

  // ---- Which plan is built ----

  /** The columns the override asks for; none where it gives no list or an empty one. */
  function RequestedColumns(override: Option<Override>): seq<string> {
    match override
    case Some(Override(Some(names), _)) => names
    case _ => []
  }

  function RequestedKeys(override: Option<Override>): seq<string> {
    match override
    case Some(Override(_, Some(names))) => names
    case _ => []
  }

  predicate Shared(sourceColumns: seq<ColumnMetadata>, targetColumns: seq<ColumnMetadata>, n: string) {
    n in Names(sourceColumns) && n in Names(targetColumns)
  }

  /** The column is synchronised: it is asked for, or nothing is asked for and both tables have it. */
  predicate Synchronised(sourceColumns: seq<ColumnMetadata>, targetColumns: seq<ColumnMetadata>,
      override: Option<Override>, n: string)
  {
    if RequestedColumns(override) != [] then n in RequestedColumns(override)
    else Shared(sourceColumns, targetColumns, n)
  }

  /** A key column of the target among those synchronised. */
  predicate OwnKey(sourceColumns: seq<ColumnMetadata>, targetColumns: seq<ColumnMetadata>, override: Option<Override>,
      c: ColumnMetadata)
  {
    c in targetColumns && c.isPrimaryKey && Synchronised(sourceColumns, targetColumns, override, c.name)
  }

  /** What the override asks for is there, or something can be synchronised without it. */
  ghost predicate ColumnsFound(sourceColumns: seq<ColumnMetadata>, targetColumns: seq<ColumnMetadata>,
      override: Option<Override>)
  {
    if RequestedColumns(override) != []
    then forall n :: n in RequestedColumns(override) ==> Shared(sourceColumns, targetColumns, n)
    else exists n :: Shared(sourceColumns, targetColumns, n)
  }

  /**
   The key the override asks for is there and synchronised; without one, the target has a key column among those
   synchronised and the source marks every such column as its own key.
   */
  ghost predicate KeyFound(sourceColumns: seq<ColumnMetadata>, targetColumns: seq<ColumnMetadata>,
      override: Option<Override>)
  {
    if RequestedKeys(override) != []
    then forall n :: n in RequestedKeys(override) ==>
      Shared(sourceColumns, targetColumns, n) && Synchronised(sourceColumns, targetColumns, override, n)
    else
      && (exists c :: OwnKey(sourceColumns, targetColumns, override, c))
      && forall s, c :: s in sourceColumns && OwnKey(sourceColumns, targetColumns, override, c) && s.name == c.name ==>
           s.isPrimaryKey
  }

  lemma SharedNames(sourceColumns: seq<ColumnMetadata>, targetColumns: seq<ColumnMetadata>, requested: seq<string>)
    ensures MissingNames(requested, LookupByName(sourceColumns), LookupByName(targetColumns)) == [] <==>
      forall n :: n in requested ==> Shared(sourceColumns, targetColumns, n)
  {
    hide LookupByName;
    var missing := MissingNames(requested, LookupByName(sourceColumns), LookupByName(targetColumns));
    if missing != [] {
      assert missing[0] in missing;
    }
    if n :| n in requested && !Shared(sourceColumns, targetColumns, n) {
      assert n in missing;
    }
  }

  lemma CommonNames(sourceColumns: seq<ColumnMetadata>, targetColumns: seq<ColumnMetadata>)
    ensures forall n :: n in Names(CommonColumns(LookupByName(sourceColumns), targetColumns)) <==>
      Shared(sourceColumns, targetColumns, n)
  {
    hide LookupByName;
    hide CommonColumns;
    var common := CommonColumns(LookupByName(sourceColumns), targetColumns);
    forall n ensures n in Names(common) <==> Shared(sourceColumns, targetColumns, n) {
      if n in Names(common) {
        var i :| 0 <= i < |common| && Names(common)[i] == n;
        assert common[i] in common;
        NameOfMember(targetColumns, common[i]);
      }
      if Shared(sourceColumns, targetColumns, n) {
        var i :| 0 <= i < |targetColumns| && Names(targetColumns)[i] == n;
        assert targetColumns[i] in common;
        NameOfMember(common, targetColumns[i]);
      }
    }
  }

  /** The columns to synchronise. */
  lemma SelectedIff(sourceColumns: seq<ColumnMetadata>, targetColumns: seq<ColumnMetadata>, override: Option<Override>)
    ensures var r := SelectedNames(LookupByName(sourceColumns), LookupByName(targetColumns), targetColumns, override);
      && (r.Ok? <==> ColumnsFound(sourceColumns, targetColumns, override))
      && (r.Ok? ==> forall n :: n in r.value <==> Synchronised(sourceColumns, targetColumns, override, n))
      && (r.Ok? ==> r.value == if RequestedColumns(override) != [] then RequestedColumns(override)
            else Names(CommonColumns(LookupByName(sourceColumns), targetColumns)))
  {
    hide LookupByName;
    hide CommonColumns;
    hide MissingNames;
    hide Shared;
    hide Names;
    SharedNames(sourceColumns, targetColumns, RequestedColumns(override));
    CommonNames(sourceColumns, targetColumns);
    var common := Names(CommonColumns(LookupByName(sourceColumns), targetColumns));
    if common != [] {
      assert common[0] in common;
    }
  }

  /** The columns to join on, among the columns to synchronise. */
  lemma KeysIff(sourceColumns: seq<ColumnMetadata>, targetColumns: seq<ColumnMetadata>, override: Option<Override>,
      selected: seq<string>)
    requires Distinct(Names(sourceColumns))
    requires forall n :: n in selected <==> Synchronised(sourceColumns, targetColumns, override, n)
    requires ColumnsFound(sourceColumns, targetColumns, override)
    ensures var source, target := LookupByName(sourceColumns), LookupByName(targetColumns);
      var r := PrimaryKeyNames(source, target, targetColumns, selected, override);
      && (r.Ok? <==> KeyFound(sourceColumns, targetColumns, override))
      && (r.Ok? ==> r.value == if RequestedKeys(override) != [] then RequestedKeys(override)
            else Names(KeyColumns(targetColumns, selected)))
      && forall c :: c in KeyColumns(targetColumns, selected) <==> OwnKey(sourceColumns, targetColumns, override, c)
  {
    hide LookupByName;
    hide KeyColumns;
    hide MissingNames;
    hide Shared;
    hide Names;
    hide Unmarked;
    hide Synchronised;
    hide ColumnsFound;
    var keys := RequestedKeys(override);
    SharedNames(sourceColumns, targetColumns, keys);
    if keys != [] {
      OutsideNames(selected, keys);
    } else {
      LookupExact(sourceColumns);
      OwnKeysMarked(sourceColumns, targetColumns, override, selected);
    }
  }

  lemma OutsideNames(selected: seq<string>, keys: seq<string>)
    ensures Filter((n: string) => n !in selected, keys) == [] <==> forall n :: n in keys ==> n in selected
  {
    var outside := Filter((n: string) => n !in selected, keys);
    if outside != [] {
      assert outside[0] in outside;
    }
    if n :| n in keys && n !in selected {
      assert n in outside;
    }
  }

  /**
   The plan is built exactly when the columns and the key are found. Whatever the override asks for is what the plan
   holds, in that order; the rest is every shared column, or every key column of the target among those chosen.
   */
  lemma PlanIff(sourceColumns: seq<ColumnMetadata>, targetColumns: seq<ColumnMetadata>, override: Option<Override>)
    requires Distinct(Names(sourceColumns)) && Distinct(Names(targetColumns))
    ensures var r := BuildPlan(sourceColumns, targetColumns, override);
      r.Ok? <==>
        ColumnsFound(sourceColumns, targetColumns, override) && KeyFound(sourceColumns, targetColumns, override)
    ensures var r := BuildPlan(sourceColumns, targetColumns, override);
      r.Ok? ==>
        if RequestedColumns(override) != [] then Names(r.value.syncColumns) == RequestedColumns(override)
        else forall c :: c in r.value.syncColumns <==> c in targetColumns && c.name in Names(sourceColumns)
    ensures var r := BuildPlan(sourceColumns, targetColumns, override);
      r.Ok? ==>
        if RequestedKeys(override) != [] then Names(r.value.primaryKeyColumns) == RequestedKeys(override)
        else forall c :: c in r.value.primaryKeyColumns <==> OwnKey(sourceColumns, targetColumns, override, c)
  {
    hide LookupByName;
    hide SelectedNames;
    hide PrimaryKeyNames;
    hide CommonColumns;
    hide KeyColumns;
    hide Select;
    hide Names;
    hide Distinct;
    hide ColumnsFound;
    hide KeyFound;
    hide OwnKey;
    hide Synchronised;
    var source, target := LookupByName(sourceColumns), LookupByName(targetColumns);
    SelectedKnown(source, target, targetColumns, override);
    SelectedIff(sourceColumns, targetColumns, override);
    LookupExact(targetColumns);
    if ColumnsFound(sourceColumns, targetColumns, override) {
      var selected := SelectedNames(source, target, targetColumns, override).value;
      KeysIff(sourceColumns, targetColumns, override, selected);
      KeysKnown(source, target, targetColumns, selected, override);
      NamesSelected(target, selected);
      SelectNames(target, CommonColumns(source, targetColumns), Names(CommonColumns(source, targetColumns)));
      if KeyFound(sourceColumns, targetColumns, override) {
        NamesSelected(target, PrimaryKeyNames(source, target, targetColumns, selected, override).value);
        SelectNames(target, KeyColumns(targetColumns, selected), Names(KeyColumns(targetColumns, selected)));
      }
    }
  }

  /** What a refusal says is so. */
  ghost predicate Truthful(sourceColumns: seq<ColumnMetadata>, targetColumns: seq<ColumnMetadata>,
      override: Option<Override>, error: PlanError)
  {
    match error
    case NoCommonColumns =>
      RequestedColumns(override) == [] && forall n :: !Shared(sourceColumns, targetColumns, n)
    case ColumnsNotFound(names) =>
      && names != []
      && forall n :: n in names ==>
           (n in RequestedColumns(override) || n in RequestedKeys(override)) && !Shared(sourceColumns, targetColumns, n)
    case KeyOutsideSyncColumns =>
      exists n :: n in RequestedKeys(override) && !Synchronised(sourceColumns, targetColumns, override, n)
    case NoSharedPrimaryKey =>
      RequestedKeys(override) == [] && forall c :: !OwnKey(sourceColumns, targetColumns, override, c)
    case SourceKeyMissing(names) =>
      && names != []
      && forall n :: n in names ==> exists s, c ::
           s in sourceColumns && !s.isPrimaryKey && OwnKey(sourceColumns, targetColumns, override, c)
           && s.name == c.name == n
  }

  lemma PlanRefusal(sourceColumns: seq<ColumnMetadata>, targetColumns: seq<ColumnMetadata>, override: Option<Override>)
    requires BuildPlan(sourceColumns, targetColumns, override).Err?
    ensures Truthful(sourceColumns, targetColumns, override, BuildPlan(sourceColumns, targetColumns, override).error)
  {
    hide LookupByName;
    hide PrimaryKeyNames;
    hide CommonColumns;
    hide Shared;
    hide Names;
    hide Synchronised;
    var source, target := LookupByName(sourceColumns), LookupByName(targetColumns);
    var selected := SelectedNames(source, target, targetColumns, override);
    SelectedIff(sourceColumns, targetColumns, override);
    if selected.Ok? {
      KeysRefusal(sourceColumns, targetColumns, override, selected.value);
    } else {
      MissingNotShared(sourceColumns, targetColumns, RequestedColumns(override));
    }
  }

  lemma MissingNotShared(sourceColumns: seq<ColumnMetadata>, targetColumns: seq<ColumnMetadata>, requested: seq<string>)
    ensures forall n :: n in MissingNames(requested, LookupByName(sourceColumns), LookupByName(targetColumns)) <==>
      n in requested && !Shared(sourceColumns, targetColumns, n)
  {
  }

  lemma KeysRefusal(sourceColumns: seq<ColumnMetadata>, targetColumns: seq<ColumnMetadata>, override: Option<Override>,
      selected: seq<string>)
    requires forall n :: n in selected <==> Synchronised(sourceColumns, targetColumns, override, n)
    ensures var r := PrimaryKeyNames(LookupByName(sourceColumns), LookupByName(targetColumns), targetColumns, selected,
        override);
      r.Err? ==> Truthful(sourceColumns, targetColumns, override, r.error)
  {
    hide LookupByName;
    hide KeyColumns;
    hide MissingNames;
    hide Shared;
    hide Unmarked;
    hide Synchronised;
    var source := LookupByName(sourceColumns);
    var keys := RequestedKeys(override);
    MissingNotShared(sourceColumns, targetColumns, keys);
    OutsideNames(selected, keys);
    var own := KeyColumns(targetColumns, selected);
    assert forall c :: c in own <==> OwnKey(sourceColumns, targetColumns, override, c);
    if own != [] {
      assert Names(own) != [];
    }
    forall n | n in Unmarked(source, Names(own))
      ensures exists s, c ::
        s in sourceColumns && !s.isPrimaryKey && OwnKey(sourceColumns, targetColumns, override, c)
        && s.name == c.name == n
    {
      var i :| 0 <= i < |own| && Names(own)[i] == n;
      assert own[i] in own && source[n] in sourceColumns;
    }
  }

  lemma NamesSelected(lookup: Columns, names: seq<string>)
    requires (forall n :: n in names ==> n in lookup) && forall n :: n in lookup ==> lookup[n].name == n
    ensures Names(Select(lookup, names)) == names
  {
    forall i | 0 <= i < |names| ensures Names(Select(lookup, names))[i] == names[i] {
      assert names[i] in names;
    }
  }

  /** Without an override a plan takes every shared column and every shared key column of the target, or none. */
  lemma DefaultPlan(sourceColumns: seq<ColumnMetadata>, targetColumns: seq<ColumnMetadata>)
    requires Distinct(Names(sourceColumns)) && Distinct(Names(targetColumns))
    ensures var r := BuildPlan(sourceColumns, targetColumns, None);
      r.Ok? <==> (exists c :: SharedKey(sourceColumns, targetColumns, c)) && KeysAgree(sourceColumns, targetColumns)
    ensures var r := BuildPlan(sourceColumns, targetColumns, None);
      r.Ok? ==> forall c :: c in r.value.syncColumns <==> c in targetColumns && c.name in Names(sourceColumns)
    ensures var r := BuildPlan(sourceColumns, targetColumns, None);
      r.Ok? ==> forall c :: c in r.value.primaryKeyColumns <==> SharedKey(sourceColumns, targetColumns, c)
  {
    hide BuildPlan;
    hide Names;
    PlanIff(sourceColumns, targetColumns, None);
    forall c ensures OwnKey(sourceColumns, targetColumns, None, c) <==> SharedKey(sourceColumns, targetColumns, c) {
      if c in targetColumns {
        NameOfMember(targetColumns, c);
      }
    }
    if c :| SharedKey(sourceColumns, targetColumns, c) {
      NameOfMember(targetColumns, c);
      assert Shared(sourceColumns, targetColumns, c.name);
    }
  }

  lemma LookupExact(columns: seq<ColumnMetadata>)
    requires Distinct(Names(columns))
    ensures forall c :: c in columns ==> c.name in LookupByName(columns) && LookupByName(columns)[c.name] == c
  {
    forall c | c in columns ensures c.name in LookupByName(columns) && LookupByName(columns)[c.name] == c {
      NameOfMember(columns, c);
      SameName(columns, LookupByName(columns)[c.name], c);
    }
  }

  lemma SameName(columns: seq<ColumnMetadata>, a: ColumnMetadata, b: ColumnMetadata)
    requires Distinct(Names(columns)) && a in columns && b in columns && a.name == b.name
    ensures a == b
  {
    var i :| 0 <= i < |columns| && columns[i] == a;
    var j :| 0 <= j < |columns| && columns[j] == b;
    assert Names(columns)[i] == Names(columns)[j];
  }

  lemma SelectNames(lookup: Columns, columns: seq<ColumnMetadata>, names: seq<string>)
    requires names == Names(columns) && forall c :: c in columns ==> c.name in lookup && lookup[c.name] == c
    ensures (forall n :: n in names ==> n in lookup) && Select(lookup, names) == columns
  {
    forall n | n in names ensures n in lookup {
      var i :| 0 <= i < |columns| && columns[i].name == n;
      assert columns[i] in columns;
    }
    forall i | 0 <= i < |columns| ensures Select(lookup, names)[i] == columns[i] {
      assert columns[i] in columns && names[i] == columns[i].name;
    }
  }

  /** The builder reports the key columns to synchronise that the source does not mark. */
  lemma OwnKeysMarked(sourceColumns: seq<ColumnMetadata>, targetColumns: seq<ColumnMetadata>,
      override: Option<Override>, selected: seq<string>)
    requires forall s :: s in sourceColumns ==>
      s.name in LookupByName(sourceColumns) && LookupByName(sourceColumns)[s.name] == s
    requires forall n :: n in selected <==> Synchronised(sourceColumns, targetColumns, override, n)
    ensures var names := Names(KeyColumns(targetColumns, selected));
      && (names == [] <==> !exists c :: OwnKey(sourceColumns, targetColumns, override, c))
      && (Unmarked(LookupByName(sourceColumns), names) == [] <==>
            forall s, c ::
              s in sourceColumns && OwnKey(sourceColumns, targetColumns, override, c) && s.name == c.name ==>
                s.isPrimaryKey)
  {
    hide LookupByName;
    hide KeyColumns;
    hide Synchronised;
    var source := LookupByName(sourceColumns);
    var keys := KeyColumns(targetColumns, selected);
    var missing := Unmarked(source, Names(keys));
    assert forall c :: c in keys <==> OwnKey(sourceColumns, targetColumns, override, c);
    if keys != [] {
      assert keys[0] in keys;
    }
    if missing == [] {
      forall s, c | s in sourceColumns && OwnKey(sourceColumns, targetColumns, override, c) && s.name == c.name
        ensures s.isPrimaryKey
      {
        NameOfMember(keys, c);
        assert c.name !in missing;
      }
    } else {
      var n := missing[0];
      assert n in missing;
      var i :| 0 <= i < |keys| && keys[i].name == n;
      assert keys[i] in keys && source[n] in sourceColumns;
    }
  }

  // ---- SQL ----

  const TextTypeNames := {"char", "nchar", "ntext", "nvarchar", "text", "varchar"}

  /** str.lower, on the letters that type names are made of. */
  function Lower(s: string): string {
    Map((c: char) => if 'A' <= c <= 'Z' then ((c as int) + 32) as char else c, s)
  }

  function Join(c: ColumnMetadata): Condition {
    Equal(Column(Target, c.name), Column(Source, c.name))
  }

  /** _build_column_difference_condition. */
  function Difference(c: ColumnMetadata): Condition {
    var t, s := Column(Target, c.name), Column(Source, c.name);
    if Lower(c.typeName) in TextTypeNames then
      Or([And([IsNull(t), IsNotNull(s)]), And([IsNotNull(t), IsNull(s)]), NotEqual(Collated(t), Collated(s))])
    else if Lower(c.typeName) == "bit" then
      NotEqual(IsNullOr(CastInt(t), -1), IsNullOr(CastInt(s), -1))
    else
      Or([And([IsNull(t), IsNotNull(s)]), And([IsNotNull(t), IsNull(s)]), NotEqual(t, s)])
  }

  function FromSource(c: ColumnMetadata): Assignment {
    Assignment(c.name, Column(Source, c.name))
  }

  function SourceColumn(c: ColumnMetadata): Operand {
    Column(Source, c.name)
  }

  /** _build_merge_query: the update clause is left out when there is nothing to update. */
  function BuildMerge(plan: Plan): (m: Merge)
    ensures |m.insertColumns| == |m.insertValues|
  {
    var updatable := UpdatableColumns(plan);
    Merge(And(Map(Join, plan.primaryKeyColumns)),
          if updatable == [] then None
          else Some(MatchedUpdate(Or(Map(Difference, updatable)), Map(FromSource, updatable))),
          Names(plan.syncColumns), Map(SourceColumn, plan.syncColumns))
  }
}
