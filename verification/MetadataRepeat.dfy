/** Synchronising the same payload again, and the one attribute a hash match can leave behind. */
module MetadataRepeat {
  import opened Prelude
  import opened Metadata
  import opened PayloadViews
  import opened MetadataSync
  import opened MetadataSyncTheory
  import opened MetadataView
  import opened MetadataCounters
  import opened MetadataChanges
  import opened MetadataOutcome

  // ---- What is shown is what the rows say ----

  lemma ShownEntity(t: Tables, source: int, l: string, a: EntityAttributes)
    requires Valid(t)
    ensures CurrentEntity(t, source, l, a) <==> l in Visible(t, source) && Visible(t, source)[l].attributes == a
  {
    hide Visible;
    hide Valid;
    ValidKeys(t);
    if CurrentEntity(t, source, l, a) {
      var e :| EntityAt(t, source, l, e) && EntityShows(t, e, a);
      ViewOfRow(t, source, l, e);
    }
    if l in Visible(t, source) {
      var e := RowOfView(t, source, l);
      ViewOfRow(t, source, l, e);
    }
  }

  lemma ShownField(t: Tables, source: int, l: string, n: string)
    requires Valid(t) && l in Visible(t, source) && n in Visible(t, source)[l].fields
    ensures CurrentField(t, source, (l, n), Visible(t, source)[l].fields[n])
  {
    hide Visible;
    hide FieldsOf;
    hide Valid;
    ValidKeys(t);
    var e := RowOfView(t, source, l);
    ViewOfRow(t, source, l, e);
    var f := RowOfField(t, e, n);
    FieldOfRow(t, e, n, f);
    assert FieldOfSource(t, source, f) && CellOf(t, f) == (l, n);
  }

  // ---- A pass with nothing to do ----

  lemma EntityUpToDate(s: Scan, source: int, m: Listed)
    requires Valid(s.tables) && Indexed(source, s) && Resolves(s)
    requires CurrentEntity(s.tables, source, m.model.modelLabel, m.model.attributes)
    ensures ScanEntity(s, source, m).tables == s.tables
  {
    hide UniqueEntities;
    hide UniqueFields;
    var l := m.model.modelLabel;
    var e :| EntityAt(s.tables, source, l, e) && EntityShows(s.tables, e, m.model.attributes);
    assert OfSource(s.tables, source, e);
    assert EntityHashed(s.tables.entities[e]);
  }

  lemma FieldUpToDate(s: Scan, source: int, l: string, f: FieldMetadata)
    requires Valid(s.tables) && Indexed(source, s) && Resolves(s) && l in s.entityIds
    requires CurrentField(s.tables, source, (l, f.name), Normalize(f.attributes))
    ensures ScanField(s, s.entityIds[l], f).tables == s.tables
  {
    hide UniqueEntities;
    hide UniqueFields;
    var g :| FieldOfSource(s.tables, source, g) && CellOf(s.tables, g) == (l, f.name)
      && FieldShows(s.tables, g, Normalize(f.attributes));
    assert Lookup(s.entityIds, l) == Some(s.tables.fields[g].entity);
    assert FieldHashed(s.tables.fields[g]);
  }

  ghost predicate UpToDate(t: Tables, source: int, m: ModelMetadata) {
    && CurrentEntity(t, source, m.modelLabel, m.attributes)
    && forall i :: 0 <= i < |m.fields| ==>
         CurrentField(t, source, (m.modelLabel, m.fields[i].name), Normalize(m.fields[i].attributes))
  }

  lemma {:induction false} FieldsUpToDate(start: Tables, source: int, s: Scan, v: View, l: string,
      fields: seq<FieldMetadata>)
    requires Tracks(start, source, s, v) && Resolves(s) && l in v && l in s.entityIds
    requires forall i :: 0 <= i < |fields| ==>
      CurrentField(s.tables, source, (l, fields[i].name), Normalize(fields[i].attributes))
    ensures ScanFields(s, s.entityIds[l], fields).tables == s.tables
  {
    hide Tracks;
    hide ScanField;
    hide CurrentField;
    if fields != [] {
      var n := |fields| - 1;
      var front := fields[..n];
      forall i | 0 <= i < |front|
        ensures CurrentField(s.tables, source, (l, front[i].name), Normalize(front[i].attributes))
      {
        assert front[i] == fields[i];
      }
      FieldsUpToDate(start, source, s, v, l, front);
      TracksFields(start, source, s, v, l, front);
      var s1 := ScanFields(s, s.entityIds[l], front);
      TracksIndexed(start, source, s1, AddFields(v, l, front));
      FieldUpToDate(s1, source, l, fields[n]);
    }
  }

  lemma {:induction false} ModelsUpToDate(t: Tables, source: int, models: seq<Listed>)
    requires Valid(t)
    requires forall i :: 0 <= i < |models| ==> UpToDate(t, source, models[i].model)
    ensures ScanModels(Open(t, source), source, models).tables == t
  {
    hide Tracks;
    hide ScanEntity;
    hide ScanFields;
    hide CurrentField;
    hide CurrentEntity;
    hide Valid;
    ValidKeys(t);
    if models != [] {
      var n := |models| - 1;
      var m, front := models[n], models[..n];
      forall i | 0 <= i < |front| ensures UpToDate(t, source, front[i].model) {
        assert front[i] == models[i];
      }
      ModelsUpToDate(t, source, front);
      TracksOpen(t, source);
      TracksModels(t, source, Open(t, source), front);
      var s, v := ScanModels(Open(t, source), source, front), PayloadView(front);
      TracksIndexed(t, source, s, v);
      EntityUpToDate(s, source, m);
      TracksEntity(t, source, s, v, m);
      FieldsUpToDate(t, source, ScanEntity(s, source, m), AddEntity(v, m.model), m.model.modelLabel, m.model.fields);
    }
  }

  lemma NothingRetired(s: Scan, source: int)
    requires |MissingEntities(s.tables, source, s.seenLabels)| == 0
    requires |MissingFields(s.tables, s.seenEntities, s.seenFields)| == 0
    ensures Close(s, source).0 == s.tables
  {
    assert MissingEntities(s.tables, source, s.seenLabels) == {};
    assert MissingFields(s.tables, s.seenEntities, s.seenFields) == {};
    var t1 := DeactivateEntities(s.tables, source, s.seenLabels);
    forall e | e in s.tables.entities ensures t1.entities[e] == s.tables.entities[e] {
      assert e !in MissingEntities(s.tables, source, s.seenLabels);
    }
    assert t1.entities == s.tables.entities;
    var t2 := DeactivateFields(t1, s.seenEntities, s.seenFields);
    forall f | f in s.tables.fields ensures t2.fields[f] == s.tables.fields[f] {
      assert f !in MissingFields(s.tables, s.seenEntities, s.seenFields);
    }
    assert t2.fields == s.tables.fields;
  }

  /** A view shown in full leaves nothing to create, rewrite or retire. */
  lemma ShownNeedsNothing(t: Tables, source: int)
    requires Valid(t)
    ensures var v := Visible(t, source);
      && v.Keys - KnownLabels(t, source) == {} && Cells(v) - KnownCells(t, source) == {}
      && StaleLabels(t, source, v) == {} && StaleCells(t, source, v) == {}
      && RetiredCells(t, source, v) == {}
  {
    hide Visible;
    hide FieldsOf;
    hide Valid;
    ValidKeys(t);
    var v := Visible(t, source);
    forall l | l in v ensures l in KnownLabels(t, source) && CurrentEntity(t, source, l, v[l].attributes) {
      ShownEntity(t, source, l, v[l].attributes);
      var e := RowOfView(t, source, l);
    }
    forall c | c in Cells(v) ensures c in KnownCells(t, source) && CurrentField(t, source, c, v[c.0].fields[c.1]) {
      ShownField(t, source, c.0, c.1);
      CurrentFieldKnown(t, source, c, v[c.0].fields[c.1]);
    }
    forall c | c in ActiveCells(t, source) && c.0 in v ensures c in Cells(v) {
      ActiveCellShown(t, source, c);
    }
  }

  lemma ActiveCellShown(t: Tables, source: int, c: (string, string))
    requires Valid(t) && c in ActiveCells(t, source) && c.0 in Visible(t, source)
    ensures c in Cells(Visible(t, source))
  {
    hide Visible;
    hide FieldsOf;
    var f :| f in t.fields && FieldOfSource(t, source, f) && t.fields[f].active && CellOf(t, f) == c;
    var e := RowOfView(t, source, c.0);
    assert SameEntityKey(t.entities[e], t.entities[t.fields[f].entity]);
    ViewOfRow(t, source, c.0, e);
    FieldOfRow(t, e, c.1, f);
  }

  lemma ShownUpToDate(t: Tables, source: int, m: ModelMetadata)
    requires Valid(t) && HoldsModel(Visible(t, source), m)
    ensures UpToDate(t, source, m)
  {
    hide Visible;
    hide Valid;
    hide Normalize;
    hide CurrentEntity;
    hide CurrentField;
    ShownEntity(t, source, m.modelLabel, m.attributes);
    forall j | 0 <= j < |m.fields|
      ensures CurrentField(t, source, (m.modelLabel, m.fields[j].name), Normalize(m.fields[j].attributes))
    {
      ShownField(t, source, m.modelLabel, m.fields[j].name);
    }
  }

  /** A payload that is shown already: no row changes, nothing is counted but what is seen. */
  lemma SyncWhenShown(t: Tables, source: int, models: seq<Listed>)
    requires Valid(t) && Unambiguous(models) && Visible(t, source) == PayloadView(models)
    ensures FullSync(t, source, models) == (t, Zero.(entitiesSeen := |models|, fieldsSeen := FieldCount(models)))
  {
    hide Visible;
    hide Valid;
    hide Tracks;
    hide KnownLabels;
    hide KnownCells;
    hide StaleLabels;
    hide StaleCells;
    hide RetiredCells;
    hide CurrentEntity;
    hide CurrentField;
    hide Close;
    ValidKeys(t);
    forall i | 0 <= i < |models| ensures UpToDate(t, source, models[i].model) {
      ViewHolds(models, i);
      ShownUpToDate(t, source, models[i].model);
    }
    ModelsUpToDate(t, source, models);
    TracksOpen(t, source);
    TracksModels(t, source, Open(t, source), models);
    var s, v := ScanModels(Open(t, source), source, models), PayloadView(models);
    EntitiesRetired(t, source, s, v);
    FieldsRetired(t, source, s, v);
    ShownNeedsNothing(t, source);
    NothingRetired(s, source);
    CountersExact(t, source, models);
  }

  /** Synchronising twice is synchronising once: same rows, same ids, zero counters. */
  lemma SyncAgain(t: Tables, source: int, models: seq<Listed>)
    requires Valid(t) && Unambiguous(models)
    ensures var u := FullSync(t, source, models).0;
      && Valid(u)
           && FullSync(u, source, models) == (u, Zero.(entitiesSeen := |models|, fieldsSeen := FieldCount(models)))
  {
    FullSyncShowsPayload(t, source, models);
    SyncWhenShown(FullSync(t, source, models).0, source, models);
  }
}
