/** The part of T-SQL the synchroniser generates: conditions in three-valued logic, and MERGE. */
module SqlServer {
  import opened Prelude

  datatype Value = Null | Number(n: int) | Text(s: string) | Bit(b: bool)

  type Row = map<string, Value>

  /** A column that is not mentioned reads as NULL. */
  function Get(r: Row, column: string): Value {
    if column in r then r[column] else Null
  }

  // ---- Text comparison ----

  /** A collation maps texts it takes for equal to one text. */
  datatype Collations = Collations(database: string -> string, column: (string, string) -> string)

  datatype Collation = DatabaseDefault | OfColumn(name: string) | Binary

  function Fold(env: Collations, c: Collation, v: Value): Value {
    if !v.Text? then v
    else match c
      case DatabaseDefault => Text(env.database(v.s))
      case OfColumn(name) => Text(env.column(name, v.s))
      case Binary => v
  }

  // ---- Conditions ----

  datatype Side = Target | Source

  datatype Operand =
    | Column(side: Side, name: string)
    | Collated(operand: Operand)
    | CastInt(operand: Operand)
    | IsNullOr(operand: Operand, replacement: int)

  datatype Condition =
    | IsNull(operand: Operand)
    | IsNotNull(operand: Operand)
    | Equal(left: Operand, right: Operand)
    | NotEqual(left: Operand, right: Operand)
    | And(conditions: seq<Condition>)
    | Or(conditions: seq<Condition>)

  datatype Truth = True | False | Unknown

  function Of(b: bool): Truth { if b then True else False }

  function Evaluate(o: Operand, t: Row, s: Row): Value {
    match o
    case Column(side, name) => Get(if side == Target then t else s, name)
    case Collated(inner) => Evaluate(inner, t, s)
    case CastInt(inner) =>
      var v := Evaluate(inner, t, s);
      if v.Bit? then Number(if v.b then 1 else 0) else if v.Number? then v else Null
    case IsNullOr(inner, c) =>
      var v := Evaluate(inner, t, s);
      if v.Null? then Number(c) else v
  }

  /** The collation a comparison uses: an explicit one, else that of the column. */
  function CollationOf(o: Operand): Collation {
    match o
    case Column(_, name) => OfColumn(name)
    case Collated(_) => DatabaseDefault
    case _ => Binary
  }

  /** Comparing with NULL is neither true nor false. */
  function Compare(env: Collations, a: Operand, b: Operand, t: Row, s: Row, equal: bool): Truth {
    var x, y := Evaluate(a, t, s), Evaluate(b, t, s);
    if x.Null? || y.Null? then Unknown
    else Of((Fold(env, CollationOf(a), x) == Fold(env, CollationOf(a), y)) == equal)
  }

  function Holds(env: Collations, c: Condition, t: Row, s: Row): Truth {
    match c
    case IsNull(o) => Of(Evaluate(o, t, s).Null?)
    case IsNotNull(o) => Of(!Evaluate(o, t, s).Null?)
    case Equal(a, b) => Compare(env, a, b, t, s, true)
    case NotEqual(a, b) => Compare(env, a, b, t, s, false)
    case And(cs) => HoldsAll(env, cs, t, s)
    case Or(cs) => HoldsAny(env, cs, t, s)
  }

  function HoldsAll(env: Collations, cs: seq<Condition>, t: Row, s: Row): Truth {
    if cs == [] then True else
      var first, rest := Holds(env, cs[0], t, s), HoldsAll(env, cs[1..], t, s);
      if first == False || rest == False then False
      else if first == True && rest == True then True else Unknown
  }

  function HoldsAny(env: Collations, cs: seq<Condition>, t: Row, s: Row): Truth {
    if cs == [] then False else
      var first, rest := Holds(env, cs[0], t, s), HoldsAny(env, cs[1..], t, s);
      if first == True || rest == True then True
      else if first == False && rest == False then False else Unknown
  }

  lemma {:induction false} AnyTrue(env: Collations, cs: seq<Condition>, t: Row, s: Row)
    ensures HoldsAny(env, cs, t, s) == True <==> exists i :: 0 <= i < |cs| && Holds(env, cs[i], t, s) == True
  {
    if cs != [] {
      AnyTrue(env, cs[1..], t, s);
      if exists i :: 0 <= i < |cs| && Holds(env, cs[i], t, s) == True {
        var i :| 0 <= i < |cs| && Holds(env, cs[i], t, s) == True;
        assert i > 0 ==> cs[1..][i - 1] == cs[i];
      }
      if exists i :: 0 <= i < |cs[1..]| && Holds(env, cs[1..][i], t, s) == True {
        var i :| 0 <= i < |cs[1..]| && Holds(env, cs[1..][i], t, s) == True;
        assert cs[1..][i] == cs[i + 1];
      }
    }
  }

  lemma {:induction false} AllTrue(env: Collations, cs: seq<Condition>, t: Row, s: Row)
    ensures HoldsAll(env, cs, t, s) == True <==> forall i :: 0 <= i < |cs| ==> Holds(env, cs[i], t, s) == True
  {
    if cs != [] {
      AllTrue(env, cs[1..], t, s);
      if forall i :: 0 <= i < |cs| ==> Holds(env, cs[i], t, s) == True {
        forall i | 0 <= i < |cs[1..]| ensures Holds(env, cs[1..][i], t, s) == True {
          assert cs[1..][i] == cs[i + 1];
        }
      }
      if HoldsAll(env, cs, t, s) == True {
        forall i | 0 <= i < |cs| ensures Holds(env, cs[i], t, s) == True {
          assert i > 0 ==> cs[1..][i - 1] == cs[i];
        }
      }
    }
  }

  // ---- Tables ----

  datatype ColumnMetadata = ColumnMetadata(
    name: string, typeName: string, isNullable: bool, isPrimaryKey: bool, primaryKeyOrdinal: Option<int>,
      isIdentity: bool)

  datatype Table = Table(columns: seq<ColumnMetadata>, rows: seq<Row>)

  /** Two rows agree on a key: no part is NULL and every part is equal under its column's collation. */
  predicate SameKey(env: Collations, names: seq<string>, a: Row, b: Row) {
    forall i :: 0 <= i < |names| ==> SamePart(env, names[i], a, b)
  }

  predicate SamePart(env: Collations, name: string, a: Row, b: Row) {
    !Get(a, name).Null? && !Get(b, name).Null?
    && Fold(env, OfColumn(name), Get(a, name)) == Fold(env, OfColumn(name), Get(b, name))
  }

  function KeyNames(columns: seq<ColumnMetadata>): seq<string> {
    if columns == [] then []
    else (if columns[0].isPrimaryKey then [columns[0].name] else []) + KeyNames(columns[1..])
  }

  predicate NullsAllowed(columns: seq<ColumnMetadata>, r: Row) {
    forall i :: 0 <= i < |columns| && Get(r, columns[i].name).Null? ==> columns[i].isNullable
  }

  /** NOT NULL and PRIMARY KEY. */
  predicate Satisfies(env: Collations, t: Table) {
    && (forall i :: 0 <= i < |t.rows| ==> NullsAllowed(t.columns, t.rows[i]))
    && (forall i, j :: 0 <= i < j < |t.rows| ==> !SameKey(env, KeyNames(t.columns), t.rows[i], t.rows[j]))
  }

  // ---- MERGE ----

  datatype Assignment = Assignment(column: string, value: Operand)

  datatype MatchedUpdate = MatchedUpdate(condition: Condition, assignments: seq<Assignment>)

  datatype Merge = Merge(on: Condition, update: Option<MatchedUpdate>, insertColumns: seq<string>,
    insertValues: seq<Operand>)

  datatype SqlError = IdentityColumn | DuplicateColumn | RowUpdatedTwice | ConstraintViolated

  datatype Action = Inserted | Updated

  function Assign(assignments: seq<Assignment>, t: Row, s: Row): Row {
    if assignments == [] then t
    else
      var last := assignments[|assignments| - 1];
      Assign(assignments[..|assignments| - 1], t, s)[last.column := Evaluate(last.value, t, s)]
  }

  function InsertedRow(columns: seq<string>, values: seq<Operand>, defaults: Row, s: Row): Row
    requires |columns| == |values|
  {
    if columns == [] then defaults
    else
      var n := |columns| - 1;
      InsertedRow(columns[..n], values[..n], defaults, s)[columns[n] := Evaluate(values[n], map[], s)]
  }

  predicate Matches(env: Collations, m: Merge, t: Row, s: Row) {
    Holds(env, m.on, t, s) == True
  }

  predicate UpdatesFrom(env: Collations, m: Merge, t: Row, s: Row) {
    Matches(env, m, t, s) && m.update.Some? && Holds(env, m.update.value.condition, t, s) == True
  }

  /** The source rows a target row is updated from. */
  function UpdatesOf(env: Collations, m: Merge, t: Row, stage: seq<Row>): seq<Row> {
    if stage == [] then []
    else (if UpdatesFrom(env, m, t, stage[0]) then [stage[0]] else []) + UpdatesOf(env, m, t, stage[1..])
  }

  function UpdatedRow(env: Collations, m: Merge, t: Row, stage: seq<Row>): Row {
    var from := UpdatesOf(env, m, t, stage);
    if from == [] || m.update.None? then t else Assign(m.update.value.assignments, t, from[0])
  }

  predicate MatchesNone(env: Collations, m: Merge, rows: seq<Row>, s: Row) {
    forall i :: 0 <= i < |rows| ==> !Matches(env, m, rows[i], s)
  }

  /** The source rows that match no target row. */
  function Unmatched(env: Collations, m: Merge, rows: seq<Row>, stage: seq<Row>): seq<Row> {
    if stage == [] then []
    else
      var n := |stage| - 1;
      Unmatched(env, m, rows, stage[..n]) + if MatchesNone(env, m, rows, stage[n]) then [stage[n]] else []
  }

  /** Every update and every insert writes one action; the order is the server's own. */
  function UpdateActions(env: Collations, m: Merge, rows: seq<Row>, stage: seq<Row>): seq<Action> {
    if rows == [] then []
    else
      var n := |rows| - 1;
      UpdateActions(env, m, rows[..n], stage) + if UpdatesOf(env, m, rows[n], stage) != [] then [Updated] else []
  }

  predicate IdentityAllowed(m: Merge, columns: seq<ColumnMetadata>, identityInsert: bool) {
    forall i :: 0 <= i < |columns| && columns[i].isIdentity ==>
      && (columns[i].name in m.insertColumns <==> identityInsert)
      && (m.update.Some? ==> forall k :: 0 <= k < |m.update.value.assignments| ==>
            m.update.value.assignments[k].column != columns[i].name)
  }

  /** A target row may be updated from one source row only. */
  predicate UpdatedOnce(env: Collations, m: Merge, rows: seq<Row>, stage: seq<Row>) {
    forall i :: 0 <= i < |rows| ==> |UpdatesOf(env, m, rows[i], stage)| <= 1
  }

  /** The rows after the statement; `defaults` gives what the k-th inserted row holds in columns not inserted. */
  function MergedRows(env: Collations, m: Merge, rows: seq<Row>, stage: seq<Row>, defaults: nat -> Row): seq<Row>
    requires |m.insertColumns| == |m.insertValues|
  {
    var added := Unmatched(env, m, rows, stage);
    seq(|rows|, i requires 0 <= i < |rows| => UpdatedRow(env, m, rows[i], stage))
    + seq(|added|, k requires 0 <= k < |added| => InsertedRow(m.insertColumns, m.insertValues, defaults(k), added[k]))
  }

  /** MERGE with OUTPUT $action: all of it or nothing. */
  function RunMerge(env: Collations, m: Merge, t: Table, stage: seq<Row>, identityInsert: bool, defaults: nat -> Row)
    : Result<(Table, seq<Action>), SqlError>
    requires |m.insertColumns| == |m.insertValues|
  {
    var after := t.(rows := MergedRows(env, m, t.rows, stage, defaults));
    if !Distinct(m.insertColumns) then Err(DuplicateColumn)
    else if !IdentityAllowed(m, t.columns, identityInsert) then Err(IdentityColumn)
    else if !UpdatedOnce(env, m, t.rows, stage) then Err(RowUpdatedTwice)
    else if !Satisfies(env, after) then Err(ConstraintViolated)
    else Ok((after, UpdateActions(env, m, t.rows, stage)
                    + seq(|Unmatched(env, m, t.rows, stage)|, _ => Inserted)))
  }

  /** SUM over a CASE: NULL over no rows at all. */
  function SumOf(actions: seq<Action>, a: Action): Option<nat> {
    if actions == [] then None else Some(CountOf(actions, a))
  }

  function CountOf(actions: seq<Action>, a: Action): nat {
    if actions == [] then 0 else CountOf(actions[..|actions| - 1], a) + if actions[|actions| - 1] == a then 1 else 0
  }
}
