/** Which rows a synchronisation rewrites and which it retires. */
module MetadataChanges {
  import opened Metadata
  import opened PayloadViews
  import opened MetadataSync
  import opened MetadataSyncTheory
  import opened MetadataView
  import opened MetadataCounters

  // ---- Rows that already say what the payload says ----

  ghost predicate CurrentEntity(t: Tables, source: int, l: string, a: EntityAttributes) {
    exists e :: EntityAt(t, source, l, e) && EntityShows(t, e, a)
  }

  ghost predicate CurrentField(t: Tables, source: int, c: (string, string), a: FieldAttributes) {
    exists f :: FieldOfSource(t, source, f) && CellOf(t, f) == c && FieldShows(t, f, a)
  }

  /** Known models of the view whose row is inactive or differs. */
  ghost function StaleLabels(t: Tables, source: int, v: View): set<string> {
    set l | l in v && l in KnownLabels(t, source) && !CurrentEntity(t, source, l, v[l].attributes)
  }

  ghost function StaleCells(t: Tables, source: int, v: View): set<(string, string)> {
    set c | c in Cells(v) && c in KnownCells(t, source) && !CurrentField(t, source, c, v[c.0].fields[c.1])
  }

  ghost predicate UpdatedCounted(start: Tables, source: int, s: Scan, v: View) {
    && s.counters.entitiesUpdated == |StaleLabels(start, source, v)|
    && s.counters.fieldsUpdated == |StaleCells(start, source, v)|
  }

  lemma EntityUpdated(start: Tables, source: int, s: Scan, v: View, m: Listed)
    requires Valid(start) && Tracks(start, source, s, v) && Resolves(s) && m.model.modelLabel !in v
    ensures var l := m.model.modelLabel;
      UpsertEntity(s.tables, source, m, Lookup(s.entityIds, l)).2 == Updated <==>
        l in KnownLabels(start, source) && !CurrentEntity(start, source, l, m.model.attributes)
  {
    hide Tracks;
    hide FieldHashed;
    hide KnownLabels;
    var l := m.model.modelLabel;
    KnownEntity(start, source, s, v, l);
    if l in s.entityIds {
      var e := s.entityIds[l];
      TracksIndexed(start, source, s, v);
      assert EntityAt(s.tables, source, l, e);
      assert EntityHashed(start.entities[e]);
      if CurrentEntity(start, source, l, m.model.attributes) {
        var d :| EntityAt(start, source, l, d) && EntityShows(start, d, m.model.attributes);
        assert SameEntityKey(start.entities[d], start.entities[e]);
      }
      assert EntityAt(start, source, l, e);
    }
  }

  lemma FieldUpdated(start: Tables, source: int, s: Scan, v: View, l: string, f: FieldMetadata)
    requires Valid(start) && Tracks(start, source, s, v) && Resolves(s) && l in v && l in s.entityIds
    requires (l, f.name) !in Cells(v)
    ensures UpsertField(s.tables, s.entityIds[l], f, Lookup(s.fieldIds, (s.entityIds[l], f.name))).2 == Updated <==>
      (l, f.name) in KnownCells(start, source) && !CurrentField(start, source, (l, f.name), Normalize(f.attributes))
  {
    hide Tracks;
    hide EntityHashed;
    hide KnownCells;
    hide Cells;
    var key := (s.entityIds[l], f.name);
    KnownField(start, source, s, v, l, f.name);
    if key in s.fieldIds {
      var g := s.fieldIds[key];
      assert FieldHashed(start.fields[g]);
      if CurrentField(start, source, (l, f.name), Normalize(f.attributes)) {
        var h :| FieldOfSource(start, source, h) && CellOf(start, h) == (l, f.name)
          && FieldShows(start, h, Normalize(f.attributes));
        assert SameEntityKey(start.entities[start.fields[g].entity], start.entities[start.fields[h].entity]);
        assert SameFieldKey(start.fields[g], start.fields[h]);
      }
    }
  }

  lemma CountedStep<T>(a: set<T>, x: T, b: set<T>, added: bool)
    requires x !in a && b == if added then a + {x} else a
    ensures |b| == |a| + if added then 1 else 0
  {
  }

  lemma StaleAfterEntity(start: Tables, source: int, v: View, m: ModelMetadata)
    requires m.modelLabel !in v
    ensures m.modelLabel !in StaleLabels(start, source, v)
    ensures StaleCells(start, source, AddEntity(v, m)) == StaleCells(start, source, v)
    ensures StaleLabels(start, source, AddEntity(v, m)) ==
      if m.modelLabel in KnownLabels(start, source) && !CurrentEntity(start, source, m.modelLabel, m.attributes)
      then StaleLabels(start, source, v) + {m.modelLabel} else StaleLabels(start, source, v)
  {
    hide CurrentEntity;
    hide CurrentField;
    hide KnownLabels;
    hide KnownCells;
    assert Cells(AddEntity(v, m)) == Cells(v);
  }

  lemma StaleAfterField(start: Tables, source: int, v: View, l: string, f: FieldMetadata)
    requires l in v && (l, f.name) !in Cells(v)
    ensures (l, f.name) !in StaleCells(start, source, v)
    ensures StaleLabels(start, source, AddField(v, l, f)) == StaleLabels(start, source, v)
    ensures StaleCells(start, source, AddField(v, l, f)) ==
      if (l, f.name) in KnownCells(start, source) && !CurrentField(start, source, (l, f.name), Normalize(f.attributes))
      then StaleCells(start, source, v) + {(l, f.name)} else StaleCells(start, source, v)
  {
    hide CurrentEntity;
    hide CurrentField;
    hide KnownLabels;
    hide KnownCells;
    CellsGrow(v, l, f);
  }

  lemma {:induction false} FieldsUpdated(start: Tables, source: int, s: Scan, v: View, l: string,
      fields: seq<FieldMetadata>)
    requires Valid(start) && Tracks(start, source, s, v) && Resolves(s) && l in v && l in s.entityIds
    requires UpdatedCounted(start, source, s, v)
    requires UniqueNames(fields) && forall n :: n in v[l].fields ==> !Names(fields, n)
    ensures UpdatedCounted(start, source, ScanFields(s, s.entityIds[l], fields), AddFields(v, l, fields))
  {
    hide Tracks;
    hide ScanField;
    hide AddField;
    hide StaleCells;
    hide StaleLabels;
    hide KnownCells;
    hide UpsertField;
    hide Valid;
    if fields != [] {
      var n := |fields| - 1;
      var e, front, f := s.entityIds[l], fields[..n], fields[n];
      UniqueFront(fields);
      forall k ensures Names(front, k) ==> Names(fields, k) {
        NamesStep(fields, k);
      }
      NamesStep(fields, f.name);
      FieldsUpdated(start, source, s, v, l, front);
      TracksFields(start, source, s, v, l, front);
      AddFieldsEffect(v, l, front);
      var s1, v1 := ScanFields(s, e, front), AddFields(v, l, front);
      FieldUpdatedCounted(start, source, s1, v1, l, f);
    }
  }

  lemma FieldUpdatedCounted(start: Tables, source: int, s: Scan, v: View, l: string, f: FieldMetadata)
    requires Valid(start) && Tracks(start, source, s, v) && Resolves(s) && l in v && l in s.entityIds
    requires UpdatedCounted(start, source, s, v) && f.name !in v[l].fields
    ensures UpdatedCounted(start, source, ScanField(s, s.entityIds[l], f), AddField(v, l, f))
  {
    hide Tracks;
    hide ScanField;
    hide AddField;
    hide StaleCells;
    hide StaleLabels;
    hide KnownCells;
    hide CurrentField;
    hide UpsertField;
    hide Valid;
    var c := (l, f.name);
    FieldAction(s, source, l, f, start, v);
    FieldUpdated(start, source, s, v, l, f);
    StaleAfterField(start, source, v, l, f);
    CountedStep(StaleCells(start, source, v), c, StaleCells(start, source, AddField(v, l, f)),
                c in KnownCells(start, source) && !CurrentField(start, source, c, Normalize(f.attributes)));
  }

  lemma EntityUpdatedCounted(start: Tables, source: int, s: Scan, v: View, m: Listed)
    requires Valid(start) && Tracks(start, source, s, v) && Resolves(s)
    requires UpdatedCounted(start, source, s, v) && m.model.modelLabel !in v
    ensures UpdatedCounted(start, source, ScanEntity(s, source, m), AddEntity(v, m.model))
  {
    hide Tracks;
    hide ScanEntity;
    hide AddEntity;
    hide StaleCells;
    hide StaleLabels;
    hide KnownLabels;
    hide CurrentEntity;
    hide UpsertEntity;
    hide Valid;
    var l := m.model.modelLabel;
    EntityAction(s, source, m, start, v);
    EntityUpdated(start, source, s, v, m);
    StaleAfterEntity(start, source, v, m.model);
    CountedStep(StaleLabels(start, source, v), l, StaleLabels(start, source, AddEntity(v, m.model)),
                l in KnownLabels(start, source) && !CurrentEntity(start, source, l, m.model.attributes));
  }

  lemma {:induction false} ModelsUpdated(start: Tables, source: int, models: seq<Listed>)
    requires Valid(start) && Unambiguous(models)
    ensures UpdatedCounted(start, source, ScanModels(Open(start, source), source, models), PayloadView(models))
  {
    hide Tracks;
    hide Resolves;
    hide ScanEntity;
    hide ScanFields;
    hide AddFields;
    hide UpdatedCounted;
    hide Valid;
    ValidKeys(start);
    TracksOpen(start, source);
    if models == [] {
      NothingUpdated(start, source);
    } else {
      var n := |models| - 1;
      var m := models[n];
      UnambiguousFront(models);
      ModelsUpdated(start, source, models[..n]);
      TracksModels(start, source, Open(start, source), models[..n]);
      var s, v := ScanModels(Open(start, source), source, models[..n]), PayloadView(models[..n]);
      TracksEntity(start, source, s, v, m);
      EntityUpdatedCounted(start, source, s, v, m);
      FieldsUpdated(start, source, ScanEntity(s, source, m), AddEntity(v, m.model), m.model.modelLabel, m.model.fields);
    }
  }

  lemma NothingUpdated(start: Tables, source: int)
    requires Valid(start)
    ensures UpdatedCounted(start, source, Open(start, source), map[])
  {
    assert Cells(map[]) == {};
    assert StaleLabels(start, source, map[]) == {} && StaleCells(start, source, map[]) == {};
  }
}
