/** What a source shows after a synchronisation, and what other sources keep showing. */
module MetadataView {
  import opened Metadata
  import opened MetadataSync
  import opened MetadataSyncTheory

  // ---- What a source shows ----

  /** The active fields of an entity. */
  ghost function FieldsOf(t: Tables, e: Id): map<string, FieldAttributes>
    requires UniqueFields(t)
  {
    map f | f in t.fields && t.fields[f].entity == e && t.fields[f].active :: t.fields[f].name := t.fields[f].attributes
  }

  /** The active entities of a source with their active fields. */
  ghost function Visible(t: Tables, source: int): View
    requires UniqueEntities(t) && UniqueFields(t)
  {
    map e | e in t.entities && t.entities[e].source == source && t.entities[e].active ::
      t.entities[e].modelLabel := EntityView(t.entities[e].attributes, FieldsOf(t, e))
  }

  predicate ShowsField(t: Tables, e: Id, n: string, f: Id) {
    FieldAt(t, (e, n), f) && t.fields[f].active
  }

  predicate ShowsEntity(t: Tables, source: int, l: string, e: Id) {
    EntityAt(t, source, l, e) && t.entities[e].active
  }

  lemma FieldOfRow(t: Tables, e: Id, n: string, f: Id)
    requires UniqueFields(t) && ShowsField(t, e, n, f)
    ensures n in FieldsOf(t, e) && FieldsOf(t, e)[n] == t.fields[f].attributes
  {
  }

  lemma RowOfField(t: Tables, e: Id, n: string) returns (f: Id)
    requires UniqueFields(t) && n in FieldsOf(t, e)
    ensures ShowsField(t, e, n, f)
  {
    f :| f in t.fields && t.fields[f].entity == e && t.fields[f].active && t.fields[f].name == n;
  }

  lemma ViewOfRow(t: Tables, source: int, l: string, e: Id)
    requires UniqueEntities(t) && UniqueFields(t) && ShowsEntity(t, source, l, e)
    ensures l in Visible(t, source)
    ensures Visible(t, source)[l] == EntityView(t.entities[e].attributes, FieldsOf(t, e))
  {
    hide FieldsOf;
    forall d | EntityAt(t, source, l, d) ensures d == e {
      assert SameEntityKey(t.entities[d], t.entities[e]);
    }
    hide UniqueEntities;
    assert t.entities[e].modelLabel == l;
  }

  lemma RowOfView(t: Tables, source: int, l: string) returns (e: Id)
    requires UniqueEntities(t) && UniqueFields(t) && l in Visible(t, source)
    ensures ShowsEntity(t, source, l, e)
  {
    e :| e in t.entities && t.entities[e].source == source && t.entities[e].active && t.entities[e].modelLabel == l;
  }

  // ---- Closing the pass ----

  predicate KeepsLabel(s: Scan, source: int, row: EntityRow) {
    row.source == source ==> row.modelLabel in s.seenLabels
  }

  predicate KeepsField(s: Scan, row: FieldRow) {
    row.entity in s.seenEntities ==> (row.entity, row.name) in s.seenFields
  }

  function ClosedEntity(s: Scan, source: int, row: EntityRow): EntityRow {
    row.(active := row.active && KeepsLabel(s, source, row))
  }

  function ClosedField(s: Scan, row: FieldRow): FieldRow {
    row.(active := row.active && KeepsField(s, row))
  }

  lemma CloseEntity(s: Scan, source: int, e: Id)
    ensures e in Close(s, source).0.entities <==> e in s.tables.entities
    ensures e in s.tables.entities ==> Close(s, source).0.entities[e] == ClosedEntity(s, source, s.tables.entities[e])
  {
  }

  lemma CloseField(s: Scan, source: int, f: Id)
    ensures f in Close(s, source).0.fields <==> f in s.tables.fields
    ensures f in s.tables.fields ==> Close(s, source).0.fields[f] == ClosedField(s, s.tables.fields[f])
  {
  }

  lemma CloseNext(s: Scan, source: int)
    ensures var t := Close(s, source).0; t.nextEntity == s.tables.nextEntity && t.nextField == s.tables.nextField
  {
  }

  lemma CloseKeepsUnique(s: Scan, source: int)
    requires UniqueEntities(s.tables) && UniqueFields(s.tables)
    ensures UniqueEntities(Close(s, source).0) && UniqueFields(Close(s, source).0)
  {
    var t := Close(s, source).0;
    hide Close;
    hide KeepsLabel;
    hide KeepsField;
    forall d, e | d in t.entities && e in t.entities && SameEntityKey(t.entities[d], t.entities[e]) ensures d == e {
      CloseEntity(s, source, d);
      CloseEntity(s, source, e);
    }
    forall f, g | f in t.fields && g in t.fields && SameFieldKey(t.fields[f], t.fields[g]) ensures f == g {
      CloseField(s, source, f);
      CloseField(s, source, g);
    }
  }

  lemma CloseValid(s: Scan, source: int)
    requires Valid(s.tables)
    ensures Valid(Close(s, source).0)
  {
    CloseKeepsUnique(s, source);
    hide Close;
    hide KeepsLabel;
    hide KeepsField;
    hide UniqueEntities;
    hide UniqueFields;
    CloseNext(s, source);
    hide EntityHashed;
    hide FieldHashed;
    var t := Close(s, source).0;
    forall e | e in t.entities ensures e.value < t.nextEntity && EntityHashed(t.entities[e]) {
      CloseEntity(s, source, e);
      ClosedHashed(s, source, e);
    }
    forall f | f in t.fields
      ensures f.value < t.nextField && FieldHashed(t.fields[f]) && t.fields[f].entity in t.entities
    {
      CloseField(s, source, f);
      CloseEntity(s, source, s.tables.fields[f].entity);
      ClosedFieldHashed(s, f);
    }
  }

  lemma ClosedHashed(s: Scan, source: int, e: Id)
    requires e in s.tables.entities && EntityHashed(s.tables.entities[e])
    ensures EntityHashed(ClosedEntity(s, source, s.tables.entities[e]))
  {
  }

  lemma ClosedFieldHashed(s: Scan, f: Id)
    requires f in s.tables.fields && FieldHashed(s.tables.fields[f])
    ensures FieldHashed(ClosedField(s, s.tables.fields[f]))
  {
  }

  lemma ClosedFieldShown(start: Tables, source: int, s: Scan, v: View, l: string, n: string)
    requires Tracks(start, source, s, v) && l in v && l in s.entityIds && n in v[l].fields
    requires UniqueFields(Close(s, source).0)
    ensures var shown := FieldsOf(Close(s, source).0, s.entityIds[l]);
      n in shown && shown[n] == v[l].fields[n]
  {
    hide Close;
    hide FieldsOf;
    hide EntitiesKept;
    hide FieldsKept;
    hide EntityIndex;
    hide UniqueFields;
    var e := s.entityIds[l];
    assert EntityTracked(s, l, v[l].attributes);
    assert FieldTracked(s, l, n, v[l].fields[n]);
    hide EntitiesTracked;
    hide FieldsTracked;
    var f := s.fieldIds[(e, n)];
    CloseField(s, source, f);
    assert FieldAt(s.tables, (e, n), f);
    FieldOfRow(Close(s, source).0, e, n, f);
  }

  lemma ShownFieldListed(start: Tables, source: int, s: Scan, v: View, l: string, n: string)
    requires Tracks(start, source, s, v) && l in v && l in s.entityIds
    requires UniqueFields(Close(s, source).0) && n in FieldsOf(Close(s, source).0, s.entityIds[l])
    ensures n in v[l].fields
  {
    hide Close;
    hide FieldsOf;
    hide EntitiesKept;
    hide FieldsKept;
    hide EntityIndex;
    hide FieldIndex;
    hide UniqueFields;
    assert EntityTracked(s, l, v[l].attributes);
    var f := RowOfField(Close(s, source).0, s.entityIds[l], n);
    CloseField(s, source, f);
  }

  /** An entity of the payload shows the fields of the payload. */
  lemma ClosedFieldsOf(start: Tables, source: int, s: Scan, v: View, l: string)
    requires Tracks(start, source, s, v) && l in v && l in s.entityIds
    ensures Valid(Close(s, source).0) && FieldsOf(Close(s, source).0, s.entityIds[l]) == v[l].fields
  {
    hide FieldsOf;
    hide Tracks;
    hide Close;
    hide Valid;
    var t, e := Close(s, source).0, s.entityIds[l];
    TracksIndexed(start, source, s, v);
    CloseValid(s, source);
    ValidKeys(t);
    var shown := FieldsOf(t, e);
    forall n | n in v[l].fields ensures n in shown && shown[n] == v[l].fields[n] {
      ClosedFieldShown(start, source, s, v, l, n);
    }
    forall n | n in shown ensures n in v[l].fields {
      ShownFieldListed(start, source, s, v, l, n);
    }
    assert shown == v[l].fields;
  }

  lemma ValidKeys(t: Tables)
    requires Valid(t)
    ensures UniqueEntities(t) && UniqueFields(t)
  {
  }

  /** After a pass the source shows the payload, whatever its tables held before. */
  lemma ClosedView(start: Tables, source: int, s: Scan, v: View)
    requires Tracks(start, source, s, v)
    ensures Valid(Close(s, source).0) && Visible(Close(s, source).0, source) == v
  {
    hide Close;
    hide EntitiesKept;
    hide FieldsKept;
    hide FieldsTracked;
    hide FieldIndex;
    hide FieldsOf;
    hide Visible;
    hide Valid;
    var t := Close(s, source).0;
    CloseValid(s, source);
    ValidKeys(t);
    var shown := Visible(t, source);
    forall l | l in v ensures l in shown && shown[l] == v[l] {
      assert EntityTracked(s, l, v[l].attributes);
      var e := s.entityIds[l];
      CloseEntity(s, source, e);
      assert EntityAt(s.tables, source, l, e);
      ViewOfRow(t, source, l, e);
      ClosedFieldsOf(start, source, s, v, l);
    }
    forall l | l in shown ensures l in v {
      var e := RowOfView(t, source, l);
      CloseEntity(s, source, e);
    }
    assert shown == v;
  }

  // ---- Other sources ----

  lemma KeptEntity(start: Tables, source: int, s: Scan, v: View, e: Id)
    requires Valid(start) && Tracks(start, source, s, v)
    ensures var t := Close(s, source).0;
      && (e in start.entities && start.entities[e].source != source ==>
           e in t.entities && t.entities[e] == start.entities[e])
      && (e in t.entities && t.entities[e].source != source ==>
           e in start.entities && t.entities[e] == start.entities[e])
  {
    hide Close;
    hide Valid;
    hide Indexed;
    hide FieldsTracked;
    hide FieldsKept;
    CloseEntity(s, source, e);
  }

  lemma SeenIsNamed(source: int, s: Scan, v: View, k: (Id, string))
    requires EntitiesTracked(source, s, v) && FieldsTracked(s, v)
    ensures k in s.seenFields ==> k.0 in s.seenEntities
    ensures k.0 in s.seenEntities ==> EntityNamed(s.tables, source, v, k.0)
  {
  }

  lemma KeptField(start: Tables, source: int, s: Scan, v: View, f: Id)
    requires Valid(start) && Tracks(start, source, s, v)
    ensures var t := Close(s, source).0;
      && (f in start.fields && !OfSource(start, source, start.fields[f].entity) ==>
           f in t.fields && t.fields[f] == start.fields[f])
      && (f in t.fields && !OfSource(t, source, t.fields[f].entity) ==>
           f in start.fields && t.fields[f] == start.fields[f])
  {
    hide Close;
    hide Indexed;
    hide FieldTracked;
    hide EntityTracked;
    CloseField(s, source, f);
    if f in start.fields && !OfSource(start, source, start.fields[f].entity) {
      var k := (start.fields[f].entity, start.fields[f].name);
      assert SameEntityKey(start.entities[k.0], s.tables.entities[k.0]);
      SeenIsNamed(source, s, v, k);
    }
    if f in s.tables.fields {
      var k := (s.tables.fields[f].entity, s.tables.fields[f].name);
      CloseEntity(s, source, k.0);
      SeenIsNamed(source, s, v, k);
    }
  }

  /** Synchronising one source changes nothing another source shows. */
  lemma OtherSourcesKept(start: Tables, source: int, s: Scan, v: View, other: int)
    requires Valid(start) && Tracks(start, source, s, v) && other != source
    ensures Valid(Close(s, source).0) && Visible(Close(s, source).0, other) == Visible(start, other)
  {
    hide Close;
    hide Tracks;
    hide FieldsOf;
    hide Visible;
    hide Valid;
    var t := Close(s, source).0;
    assert Valid(t) by {
      TracksValid(start, source, s, v);
      CloseValid(s, source);
    }
    ValidKeys(t);
    ValidKeys(start);
    forall l | l in Visible(start, other)
      ensures l in Visible(t, other) && Visible(t, other)[l] == Visible(start, other)[l]
    {
      var e := RowOfView(start, other, l);
      KeptEntity(start, source, s, v, e);
      ViewOfRow(start, other, l, e);
      ViewOfRow(t, other, l, e);
      OtherFieldsKept(start, source, s, v, e);
    }
    forall l | l in Visible(t, other) ensures l in Visible(start, other) {
      var e := RowOfView(t, other, l);
      KeptEntity(start, source, s, v, e);
      ViewOfRow(start, other, l, e);
    }
    assert Visible(t, other) == Visible(start, other);
  }

  lemma TracksValid(start: Tables, source: int, s: Scan, v: View)
    requires Tracks(start, source, s, v)
    ensures Valid(s.tables)
  {
  }

  lemma OtherFieldsKept(start: Tables, source: int, s: Scan, v: View, e: Id)
    requires Valid(start) && Tracks(start, source, s, v) && Valid(Close(s, source).0)
    requires e in start.entities && start.entities[e].source != source
    requires var t := Close(s, source).0; e in t.entities && t.entities[e].source != source
    ensures FieldsOf(Close(s, source).0, e) == FieldsOf(start, e)
  {
    hide Close;
    hide Tracks;
    hide FieldsOf;
    hide Valid;
    var t := Close(s, source).0;
    ValidKeys(t);
    ValidKeys(start);
    forall n | n in FieldsOf(start, e) ensures n in FieldsOf(t, e) && FieldsOf(t, e)[n] == FieldsOf(start, e)[n] {
      var f := RowOfField(start, e, n);
      KeptField(start, source, s, v, f);
      FieldOfRow(start, e, n, f);
      FieldOfRow(t, e, n, f);
    }
    forall n | n in FieldsOf(t, e) ensures n in FieldsOf(start, e) {
      var f := RowOfField(t, e, n);
      KeptField(start, source, s, v, f);
      FieldOfRow(start, e, n, f);
    }
    assert FieldsOf(t, e) == FieldsOf(start, e);
  }

  // ---- The whole synchronisation ----

  /**
   The view after a synchronisation is the payload's, whatever was there before: rows dropped and
   brought back, stale active fields under an inactive entity, hash matches. Other sources show what they showed.
   */
  lemma FullSyncShowsPayload(t: Tables, source: int, models: seq<Listed>)
    requires Valid(t)
    ensures var u := FullSync(t, source, models).0;
      && Valid(u) && Visible(u, source) == PayloadView(models)
      && forall other :: other != source ==> Visible(u, other) == Visible(t, other)
  {
    hide Close;
    hide Tracks;
    hide Visible;
    TracksOpen(t, source);
    var s := Open(t, source);
    TracksModels(t, source, s, models);
    var r := ScanModels(s, source, models);
    ClosedView(t, source, r, PayloadView(models));
    forall other | other != source ensures Visible(Close(r, source).0, other) == Visible(t, other) {
      OtherSourcesKept(t, source, r, PayloadView(models), other);
    }
  }
}
