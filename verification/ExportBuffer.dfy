/** The export buffer as it runs: columns and rows collected in loops, then laid out as a sheet. */
module ExportBuffer {
  import opened Prelude
  import opened ExportColumns

  class ExcelExportBuffer {
    var resultColumns: seq<string>
    var results: seq<Payload>

    constructor ()
      ensures Contents() == EmptyBuffer
    {
      resultColumns, results := BaseColumns, [];
    }

    function Contents(): Buffer
      reads this
    {
      Buffer(resultColumns, results)
    }

    /** The while loop ends because the tried names are distinct and all of them are used. */
    method FreshName(base: string, usedColumns: set<string>) returns (candidate: string)
      ensures candidate == FreeName(base, usedColumns)
    {
      candidate := base;
      var suffix := 2;
      while candidate in usedColumns
        invariant suffix >= 2 && candidate == if suffix == 2 then base else Suffixed(base, suffix - 1)
        invariant suffix > 2 ==> base in usedColumns && Tried(base, suffix - 1) <= usedColumns
        invariant suffix > 2 ==> FreeFrom(base, 2, usedColumns) == FreeFrom(base, suffix - 1, usedColumns)
        decreases |usedColumns| + 3 - suffix
      {
        TriedFit(base, suffix, usedColumns);
        candidate := Suffixed(base, suffix);
        suffix := suffix + 1;
      }
    }

    method RegisterQueryColumns(columnNames: seq<string>) returns (normalizedColumns: seq<string>)
      modifies this`resultColumns
      ensures normalizedColumns == Normalized(columnNames)
      ensures Contents() == Step(old(Contents()), Register(columnNames))
    {
      hide FreeName;
      hide BaseName;
      hide Used;
      hide Elements;
      normalizedColumns := [];
      var usedColumns := Elements(BaseColumns);
      NothingUsed();
      assert columnNames[..0] == [];
      for i := 0 to |columnNames|
        invariant normalizedColumns == Normalized(columnNames[..i]) && usedColumns == Used(normalizedColumns)
        invariant resultColumns == Extend(old(resultColumns), normalizedColumns)
      {
        NormalizedNext(columnNames, i);
        var candidate := FreshName(BaseName(columnNames[i]), usedColumns);
        UsedPush(normalizedColumns, candidate);
        ExtendPush(old(resultColumns), normalizedColumns, candidate);
        usedColumns := usedColumns + {candidate};
        normalizedColumns := normalizedColumns + [candidate];
        if candidate !in resultColumns {
          resultColumns := resultColumns + [candidate];
        }
      }
      assert columnNames[..|columnNames|] == columnNames;
    }

    method AddResultRow(row: Payload)
      modifies this
      ensures Contents() == Step(old(Contents()), AddRow(row))
    {
      for i := 0 to |row.keys|
        invariant resultColumns == Extend(old(resultColumns), row.keys[..i]) && results == old(results)
      {
        assert row.keys[..i + 1][..i] == row.keys[..i];
        if row.keys[i] !in resultColumns {
          resultColumns := resultColumns + [row.keys[i]];
        }
      }
      assert row.keys[..|row.keys|] == row.keys;
      results := results + [row];
    }

    /** The rows as save writes them below the header. */
    method Save() returns (header: seq<string>, sheet: seq<seq<Cell>>)
      ensures header == resultColumns && sheet == Sheet(Contents())
    {
      header, sheet := resultColumns, [];
      for i := 0 to |results|
        invariant |sheet| == i && forall k :: 0 <= k < i ==> sheet[k] == SheetRow(resultColumns, results[k])
      {
        var line: seq<Cell> := [];
        for j := 0 to |resultColumns|
          invariant |line| == j && forall k :: 0 <= k < j ==> line[k] == ValueOf(results[i], resultColumns[k])
        {
          line := line + [ValueOf(results[i], resultColumns[j])];
        }
        sheet := sheet + [line];
      }
    }
  }
}
