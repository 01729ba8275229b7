/** Column names of the export workbook: made distinct, registered, and read back. */
module ExportColumns {
  import opened Prelude
  import opened Strings

  const BaseColumns: seq<string> := ["server_ip", "port", "database_name", "scan_status"]

  // ---- Decimal suffixes ----

  /** str(n). */
  function Decimal(n: nat): string {
    if n < 10 then [Digit(n)] else Decimal(n / 10) + [Digit(n % 10)]
  }

  lemma {:induction false} DecimalReads(n: nat)
    ensures AllDigits(Decimal(n)) && Number(Decimal(n)) == n
  {
    DigitOfValue(n % 10);
    if n < 10 {
      assert Decimal(n)[..0] == [];
    } else {
      DecimalReads(n / 10);
      assert Decimal(n)[..|Decimal(n)| - 1] == Decimal(n / 10);
    }
  }

  function Suffixed(base: string, k: nat): string {
    base + "_" + Decimal(k)
  }

  lemma SuffixedDiffer(base: string, j: nat, k: nat)
    requires Suffixed(base, j) == Suffixed(base, k)
    ensures j == k
  {
    assert Suffixed(base, j)[|base| + 1..] == Decimal(j);
    assert Suffixed(base, k)[|base| + 1..] == Decimal(k);
    DecimalReads(j);
    DecimalReads(k);
  }

  /** The names base_2 up to base_(n-1). */
  function Tried(base: string, n: nat): set<string> {
    if n <= 2 then {} else Tried(base, n - 1) + {Suffixed(base, n - 1)}
  }

  lemma {:induction false} TriedNames(base: string, n: nat, k: nat)
    requires n >= 2 && k >= n
    ensures Suffixed(base, k) !in Tried(base, n) && |Tried(base, n)| == n - 2
  {
    if n > 2 {
      TriedNames(base, n - 1, k);
      TriedNames(base, n - 1, n - 1);
      if Suffixed(base, k) == Suffixed(base, n - 1) {
        SuffixedDiffer(base, k, n - 1);
      }
    }
  }

  /** Pigeonhole: there are no more tried names than used ones. */
  lemma TriedFit(base: string, n: nat, used: set<string>)
    requires n >= 2 && Tried(base, n) <= used
    ensures n - 2 <= |used|
  {
    TriedNames(base, n, n);
    SubsetSize(Tried(base, n), used);
  }

  lemma SubsetSize<T>(a: set<T>, b: set<T>)
    requires a <= b
    ensures |a| <= |b|
  {
    assert b == a + (b - a);
  }

  // ---- One name ----

  /** str(name).strip() or "column", kept apart from the base columns. */
  function BaseName(raw: string): string {
    var s := Strip(raw);
    var name := if s == "" then "column" else s;
    if name in BaseColumns then "query_" + name else name
  }

  /** The first of base_n, base_(n+1), ... that is not used. */
  function FreeFrom(base: string, n: nat, used: set<string>): (r: string)
    requires n >= 2 && Tried(base, n) <= used
    ensures r !in used
    ensures exists k :: n <= k && r == Suffixed(base, k) && forall j :: n <= j < k ==> Suffixed(base, j) in used
    decreases |used| + 2 - n
  {
    TriedFit(base, n, used);
    if Suffixed(base, n) !in used then Suffixed(base, n)
    else
      TriedFit(base, n + 1, used);
      FreeFrom(base, n + 1, used)
  }

  function FreeName(base: string, used: set<string>): (r: string)
    ensures r !in used && (base !in used ==> r == base)
    ensures base in used ==>
      exists k :: 2 <= k && r == Suffixed(base, k) && forall j :: 2 <= j < k ==> Suffixed(base, j) in used
  {
    if base !in used then base else FreeFrom(base, 2, used)
  }

  // ---- Registration ----

  function Used(names: seq<string>): set<string> {
    Elements(BaseColumns) + Elements(names)
  }

  lemma NothingUsed()
    ensures Used([]) == Elements(BaseColumns)
  {
  }

  lemma UsedPush(names: seq<string>, name: string)
    ensures Used(names + [name]) == Used(names) + {name}
  {
  }

  /** The names the columns of a query get, in order. */
  function Normalized(raw: seq<string>): (r: seq<string>)
    ensures |r| == |raw|
  {
    if raw == [] then [] else
      var front := Normalized(raw[..|raw| - 1]);
      front + [FreeName(BaseName(raw[|raw| - 1]), Used(front))]
  }

  /** Append the names that are not there yet. */
  function Extend(header: seq<string>, names: seq<string>): seq<string> {
    if names == [] then header else
      var front := Extend(header, names[..|names| - 1]);
      if names[|names| - 1] in front then front else front + [names[|names| - 1]]
  }

  /** The names of a query are pairwise distinct and none is a base column. */
  lemma {:induction false} NormalizedDistinct(raw: seq<string>)
    ensures Distinct(Normalized(raw))
    ensures forall n :: n in Normalized(raw) ==> n !in BaseColumns
  {
    if raw != [] {
      var front := raw[..|raw| - 1];
      NormalizedDistinct(front);
    }
  }

  /** A name that is neither a base column nor taken by an earlier column is kept, stripped. */
  lemma {:induction false} NameKept(raw: seq<string>, i: nat)
    requires i < |raw| && Strip(raw[i]) != "" && Strip(raw[i]) !in BaseColumns
    requires Strip(raw[i]) !in Normalized(raw[..i])
    ensures Normalized(raw)[i] == Strip(raw[i])
  {
    hide FreeName;
    hide Strip;
    hide BaseName;
    hide Used;
    var n := |raw| - 1;
    NormalizedLast(raw);
    hide Normalized;
    if i < n {
      assert raw[..n][..i] == raw[..i];
      assert raw[..n][i] == raw[i];
      NameKept(raw[..n], i);
    } else {
      FreeBase(raw[i], Normalized(raw[..i]));
    }
  }

  lemma NormalizedLast(raw: seq<string>)
    requires raw != []
    ensures var front := Normalized(raw[..|raw| - 1]);
      Normalized(raw) == front + [FreeName(BaseName(raw[|raw| - 1]), Used(front))]
  {
  }

  lemma NormalizedNext(raw: seq<string>, i: nat)
    requires i < |raw|
    ensures var names := Normalized(raw[..i]);
      Normalized(raw[..i + 1]) == names + [FreeName(BaseName(raw[i]), Used(names))]
  {
    hide FreeName;
    hide BaseName;
    hide Used;
    hide Normalized;
    assert raw[..i + 1][..i] == raw[..i] && raw[..i + 1][i] == raw[i];
    NormalizedLast(raw[..i + 1]);
  }

  lemma ExtendPush(header: seq<string>, names: seq<string>, name: string)
    ensures var before := Extend(header, names);
      Extend(header, names + [name]) == if name in before then before else before + [name]
  {
    assert (names + [name])[..|names|] == names;
  }

  lemma FreeBase(raw: string, names: seq<string>)
    requires Strip(raw) != "" && Strip(raw) !in BaseColumns && Strip(raw) !in names
    ensures BaseName(raw) == Strip(raw) && BaseName(raw) !in Used(names)
  {
    hide Strip;
  }

  lemma {:induction false} ExtendKeeps(header: seq<string>, names: seq<string>)
    requires Distinct(header)
    ensures var h := Extend(header, names);
      Distinct(h) && header <= h && forall n :: n in h <==> n in header || n in names
  {
    if names != [] {
      var k := |names| - 1;
      ExtendKeeps(header, names[..k]);
      assert names == names[..k] + [names[k]];
    }
  }

  // ---- The workbook ----

  datatype Cell = Blank | TextCell(s: string) | NumberCell(n: int) | TruthCell(b: bool)

  /** A row as a dictionary: its keys in order, and the value of each. */
  datatype Payload = Payload(keys: seq<string>, cells: map<string, Cell>)

  ghost predicate ValidPayload(p: Payload) {
    Distinct(p.keys) && forall k :: k in p.keys <==> k in p.cells
  }

  datatype Buffer = Buffer(header: seq<string>, rows: seq<Payload>)

  const EmptyBuffer := Buffer(BaseColumns, [])

  function ValueOf(p: Payload, column: string): Cell {
    if column in p.cells then p.cells[column] else Blank
  }

  /** A saved row: one cell for every column of the final header. */
  function SheetRow(header: seq<string>, p: Payload): seq<Cell> {
    seq(|header|, i requires 0 <= i < |header| => ValueOf(p, header[i]))
  }

  function Sheet(b: Buffer): seq<seq<Cell>> {
    seq(|b.rows|, i requires 0 <= i < |b.rows| => SheetRow(b.header, b.rows[i]))
  }

  datatype Event = Register(raw: seq<string>) | AddRow(row: Payload)

  function Step(b: Buffer, e: Event): Buffer {
    match e
    case Register(raw) => b.(header := Extend(b.header, Normalized(raw)))
    case AddRow(row) => Buffer(Extend(b.header, row.keys), b.rows + [row])
  }

  function Run(events: seq<Event>): Buffer {
    if events == [] then EmptyBuffer else Step(Run(events[..|events| - 1]), events[|events| - 1])
  }

  /** The header starts with the base columns, has no duplicate, and covers every key of every row. */
  ghost predicate Covering(b: Buffer) {
    && Distinct(b.header) && BaseColumns <= b.header
    && forall i, k :: 0 <= i < |b.rows| && k in b.rows[i].keys ==> k in b.header
  }

  lemma {:induction false} EveryRunCovers(events: seq<Event>)
    ensures Covering(Run(events))
  {
    if events != [] {
      var n := |events| - 1;
      EveryRunCovers(events[..n]);
      var b := Run(events[..n]);
      match events[n] {
        case Register(raw) => ExtendKeeps(b.header, Normalized(raw));
        case AddRow(row) => ExtendKeeps(b.header, row.keys);
      }
    } else {
      BaseDistinct();
    }
  }

  lemma BaseDistinct()
    ensures Distinct(BaseColumns)
  {
    assert BaseColumns[0][0] == 's' && BaseColumns[1][0] == 'p' && BaseColumns[2][0] == 'd' && BaseColumns[3][0] == 's';
    assert |BaseColumns[0]| == 9 && |BaseColumns[3]| == 11;
  }

  /**
   Whatever was registered and added, before and after: every cell of every row stands in the saved sheet under
   its own column, and under no other column of that name; columns a row does not have are blank.
   */
  lemma EveryCellReadsBack(events: seq<Event>, i: nat, column: string)
    requires i < |Run(events).rows| && ValidPayload(Run(events).rows[i])
    ensures var b := Run(events); var row := b.rows[i];
      && (column in row.keys ==> column in b.header)
      && (forall j :: 0 <= j < |b.header| && b.header[j] == column ==>
            Sheet(b)[i][j] == if column in row.keys then row.cells[column] else Blank)
      && (forall j, k ::
           0 <= j < |b.header| && 0 <= k < |b.header| && b.header[j] == column && b.header[k] == column ==> j == k)
  {
    EveryRunCovers(events);
  }

  // ---- Rows of a query ----

  /** {name: value}: a later value of the same name wins. */
  function Cells(names: seq<string>, values: seq<Cell>): (m: map<string, Cell>)
    requires |names| == |values|
    ensures forall k :: k in m <==> k in names
  {
    if names == [] then map[] else
      var n := |names| - 1;
      assert names == names[..n] + [names[n]];
      Cells(names[..n], values[..n])[names[n] := values[n]]
  }

  /** The fields of a scan, updated with one row of the query. */
  function QueryPayload(fields: seq<Cell>, names: seq<string>, row: seq<Cell>): Payload
    requires |fields| == |BaseColumns| && |row| == |names|
  {
    Payload(Extend(BaseColumns, names), Cells(BaseColumns, fields) + Cells(names, row))
  }

  lemma FrontDistinct(names: seq<string>)
    requires names != [] && Distinct(names)
    ensures var n := |names| - 1;
      Distinct(names[..n]) && forall i :: 0 <= i < n ==> names[i] != names[n]
  {
  }

  lemma {:induction false} CellsRead(names: seq<string>, values: seq<Cell>, i: nat)
    requires |names| == |values| && Distinct(names) && i < |names|
    ensures Cells(names, values)[names[i]] == values[i]
  {
    hide Distinct;
    var n := |names| - 1;
    FrontDistinct(names);
    if i < n {
      CellsRead(names[..n], values[..n], i);
    }
  }

  /** Under normalized names no value of the query displaces another or a field of the scan. */
  lemma QueryPayloadReads(fields: seq<Cell>, raw: seq<string>, row: seq<Cell>)
    requires |fields| == |BaseColumns| && |row| == |raw|
    ensures var names := Normalized(raw); var p := QueryPayload(fields, names, row);
      && ValidPayload(p)
      && (forall i :: 0 <= i < |names| ==> p.cells[names[i]] == row[i])
      && (forall i :: 0 <= i < |BaseColumns| ==> p.cells[BaseColumns[i]] == fields[i])
  {
    var names := Normalized(raw);
    var p := QueryPayload(fields, names, row);
    NormalizedDistinct(raw);
    BaseDistinct();
    ExtendKeeps(BaseColumns, names);
    forall i | 0 <= i < |names| ensures p.cells[names[i]] == row[i] {
      CellsRead(names, row, i);
    }
    forall i | 0 <= i < |BaseColumns| ensures p.cells[BaseColumns[i]] == fields[i] {
      CellsRead(BaseColumns, fields, i);
      assert BaseColumns[i] in BaseColumns;
    }
  }

  // ---- Names and headers in full ----

  /**
   A column name without the white space around it; a name of white space only is "column", and a base column's name
   gets the prefix "query_".
   */
  lemma BaseNameOf(before: string, name: string, after: string)
    requires AllSpace(before) && AllSpace(after)
    ensures name == "" ==> BaseName(before + name + after) == "column"
    ensures SolidEnds(name) ==>
      BaseName(before + name + after) ==
        if name == "server_ip" || name == "port" || name == "database_name" || name == "scan_status"
        then "query_" + name else name
  {
    if name == "" {
      SpaceJoined(before, after);
      assert before + name + after == before + after;
      StripSpace(before + after);
      OtherName("column");
    }
    if SolidEnds(name) {
      StripPadded(before, name, after);
      OtherName(name);
    }
  }

  lemma SpaceJoined(a: string, b: string)
    requires AllSpace(a) && AllSpace(b)
    ensures AllSpace(a + b)
  {
  }

  lemma OtherName(name: string)
    ensures name in BaseColumns <==>
      name == "server_ip" || name == "port" || name == "database_name" || name == "scan_status"
    ensures "column" !in BaseColumns
  {
    assert BaseColumns[0] == "server_ip" && BaseColumns[1] == "port";
    assert BaseColumns[2] == "database_name" && BaseColumns[3] == "scan_status";
    assert "column"[0] == 'c';
  }

  /** The event brings the column. */
  predicate Brings(e: Event, c: string) {
    match e
    case Register(raw) => c in Normalized(raw)
    case AddRow(row) => c in row.keys
  }

  /** One of the events brings the column. */
  ghost predicate BroughtBy(events: seq<Event>, c: string) {
    exists i :: 0 <= i < |events| && Brings(events[i], c)
  }

  lemma BroughtPush(events: seq<Event>, c: string)
    requires events != []
    ensures var n := |events| - 1; BroughtBy(events, c) <==> BroughtBy(events[..n], c) || Brings(events[n], c)
  {
    hide Brings;
    var n := |events| - 1;
    if i :| 0 <= i < n && Brings(events[..n][i], c) {
      assert events[i] == events[..n][i];
    }
    if i :| 0 <= i < |events| && Brings(events[i], c) {
      assert i < n ==> events[..n][i] == events[i];
    }
  }

  lemma StepBrings(b: Buffer, e: Event, c: string)
    requires Distinct(b.header)
    ensures c in Step(b, e).header <==> c in b.header || Brings(e, c)
  {
    hide Normalized;
    hide Extend;
    hide Distinct;
    match e {
      case Register(raw) => ExtendKeeps(b.header, Normalized(raw));
      case AddRow(row) => ExtendKeeps(b.header, row.keys);
    }
  }

  /** The header holds the base columns, what the queries registered and what the rows named, and nothing else. */
  lemma {:induction false} EveryColumnBrought(events: seq<Event>, c: string)
    ensures c in Run(events).header <==> c in BaseColumns || BroughtBy(events, c)
  {
    hide Step;
    hide Brings;
    hide Distinct;
    if events != [] {
      var n := |events| - 1;
      EveryColumnBrought(events[..n], c);
      EveryRunCovers(events[..n]);
      StepBrings(Run(events[..n]), events[n], c);
      BroughtPush(events, c);
    }
  }

  function AddedRows(events: seq<Event>): seq<Payload> {
    if events == [] then [] else
      var last := events[|events| - 1];
      AddedRows(events[..|events| - 1]) + if last.AddRow? then [last.row] else []
  }

  /** Rows are kept in the order they were added, and later events only append columns. */
  lemma {:induction false} RowsInOrder(events: seq<Event>, k: nat)
    requires k <= |events|
    ensures Run(events).rows == AddedRows(events) && Run(events[..k]).header <= Run(events).header
  {
    if events == [] || k == |events| {
      assert events[..k] == events;
      if events != [] {
        RowsInOrder(events[..k - 1], 0);
      }
    } else {
      var n := |events| - 1;
      RowsInOrder(events[..n], k);
      assert events[..n][..k] == events[..k];
      var b := Run(events[..n]);
      EveryRunCovers(events[..n]);
      match events[n] {
        case Register(raw) => ExtendKeeps(b.header, Normalized(raw));
        case AddRow(row) => ExtendKeeps(b.header, row.keys);
      }
    }
  }

  lemma {:induction false} IndexInFront(s: seq<string>, t: seq<string>, x: string)
    requires x in s
    ensures x in s + t && IndexOf(s + t, x) == IndexOf(s, x)
  {
    assert (s + t)[0] == s[0];
    if s[0] != x {
      assert (s + t)[1..] == s[1..] + t;
      IndexInFront(s[1..], t, x);
    }
  }

  /** Columns that are new come in the order in which they are first named. */
  lemma {:induction false} ExtendOrder(header: seq<string>, names: seq<string>, i: nat, j: nat)
    requires Distinct(header) && |header| <= i <= j < |Extend(header, names)|
    ensures var r := Extend(header, names);
      r[i] in names && r[j] in names && (i < j ==> IndexOf(names, r[i]) < IndexOf(names, r[j]))
  {
    if names != [] {
      var n := |names| - 1;
      var front, x := names[..n], names[n];
      var before := Extend(header, front);
      ExtendKeeps(header, front);
      assert names == front + [x];
      if j < |before| {
        ExtendOrder(header, front, i, j);
        IndexInFront(front, [x], before[i]);
        IndexInFront(front, [x], before[j]);
      } else if i < j {
        ExtendOrder(header, front, i, i);
        IndexInFront(front, [x], before[i]);
        assert names[IndexOf(names, x)] == x;
      }
    }
  }
}
