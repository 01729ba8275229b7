/** The counters of a synchronisation, against the tables before it and the payload. */
module MetadataCounters {
  import opened Prelude
  import opened Metadata
  import opened MetadataSync
  import opened MetadataSyncTheory
  import opened MetadataView

  // ---- What the tables know of a source before a pass ----

  /** The labels a source has rows for, active or not. */
  function KnownLabels(t: Tables, source: int): set<string> {
    set e | e in t.entities && t.entities[e].source == source :: t.entities[e].modelLabel
  }

  function CellOf(t: Tables, f: Id): (string, string)
    requires f in t.fields && t.fields[f].entity in t.entities
  {
    (t.entities[t.fields[f].entity].modelLabel, t.fields[f].name)
  }

  predicate FieldOfSource(t: Tables, source: int, f: Id) {
    f in t.fields && OfSource(t, source, t.fields[f].entity)
  }

  /** The (model, field) pairs a source has rows for, active or not. */
  function KnownCells(t: Tables, source: int): set<(string, string)> {
    set f | f in t.fields && FieldOfSource(t, source, f) :: CellOf(t, f)
  }

  /** The pairs whose field row is active, under an active entity or not. */
  function ActiveCells(t: Tables, source: int): set<(string, string)> {
    set f | f in t.fields && FieldOfSource(t, source, f) && t.fields[f].active :: CellOf(t, f)
  }

  // ---- Counting through a correspondence ----

  /** Two sets in one-to-one correspondence have one size. */
  lemma {:induction false} SameSize<A, B>(a: set<A>, b: set<B>, f: A --> B)
    requires forall x :: x in a ==> f.requires(x) && f(x) in b
    requires forall x, y :: x in a && y in a && f(x) == f(y) ==> x == y
    requires forall y :: y in b ==> exists x :: x in a && f(x) == y
    ensures |a| == |b|
    decreases |a|
  {
    if a != {} {
      var x :| x in a;
      var a', b' := a - {x}, b - {f(x)};
      forall y | y in b' ensures exists z :: z in a' && f(z) == y {
        var z :| z in a && f(z) == y;
        assert z in a';
      }
      SameSize(a', b', f);
    } else {
      assert b == {};
    }
  }

  // ---- The counts of the source summary ----

  function ActiveEntities(t: Tables, source: int): set<Id> {
    set e | e in t.entities && t.entities[e].source == source && t.entities[e].active
  }

  /** Active fields joined with active entities. */
  function ActiveFields(t: Tables, source: int): set<Id> {
    set f | f in t.fields && t.fields[f].active && t.fields[f].entity in ActiveEntities(t, source)
  }

  lemma SummaryCountsView(t: Tables, source: int)
    requires Valid(t)
    ensures |ActiveEntities(t, source)| == |Visible(t, source)|
    ensures |ActiveFields(t, source)| == |Cells(Visible(t, source))|
  {
    hide Visible;
    hide FieldsOf;
    var v := Visible(t, source);
    var entities := ActiveEntities(t, source);
    forall e | e in entities ensures t.entities[e].modelLabel in v.Keys {
      ViewOfRow(t, source, t.entities[e].modelLabel, e);
    }
    forall l | l in v.Keys ensures exists e :: e in entities && t.entities[e].modelLabel == l {
      var e := RowOfView(t, source, l);
      assert e in entities;
    }
    SameSize(entities, v.Keys, e requires e in t.entities => t.entities[e].modelLabel);
    assert |v| == |v.Keys|;
    CellsCounted(t, source);
  }

  lemma CellsCounted(t: Tables, source: int)
    requires Valid(t)
    ensures |ActiveFields(t, source)| == |Cells(Visible(t, source))|
  {
    hide Visible;
    hide FieldsOf;
    var v := Visible(t, source);
    var fields := ActiveFields(t, source);
    forall f | f in fields ensures CellOf(t, f) in Cells(v) {
      var e := t.fields[f].entity;
      ViewOfRow(t, source, t.entities[e].modelLabel, e);
      FieldOfRow(t, e, t.fields[f].name, f);
    }
    forall c | c in Cells(v) ensures exists f :: f in fields && CellOf(t, f) == c {
      var e := RowOfView(t, source, c.0);
      ViewOfRow(t, source, c.0, e);
      var f := RowOfField(t, e, c.1);
      assert f in fields && CellOf(t, f) == c;
    }
    SameSize(fields, Cells(v), f requires f in t.fields && t.fields[f].entity in t.entities => CellOf(t, f));
  }

  // ---- Which keys a running pass knows ----

  /** The lookup map holds the labels known at the start and those seen since. */
  lemma KnownEntity(start: Tables, source: int, s: Scan, v: View, l: string)
    requires Tracks(start, source, s, v)
    ensures l in s.entityIds <==> l in KnownLabels(start, source) || l in v
    ensures l in s.entityIds && l !in v ==>
      s.entityIds[l] in start.entities && s.tables.entities[s.entityIds[l]] == start.entities[s.entityIds[l]]
  {
    hide Valid;
    hide FieldIndex;
    hide FieldsTracked;
    hide FieldsKept;
    if l in s.entityIds {
      assert EntityAt(s.tables, source, l, s.entityIds[l]);
    }
    if l in v {
      assert EntityTracked(s, l, v[l].attributes);
    }
    if l in KnownLabels(start, source) {
      var e :| e in start.entities && start.entities[e].source == source && start.entities[e].modelLabel == l;
      assert SameEntityKey(start.entities[e], s.tables.entities[e]);
      assert OfSource(s.tables, source, e);
    }
  }

  lemma KnownField(start: Tables, source: int, s: Scan, v: View, l: string, n: string)
    requires Valid(start) && Tracks(start, source, s, v) && l in v && l in s.entityIds
    ensures (s.entityIds[l], n) in s.fieldIds <==> (l, n) in KnownCells(start, source) || (l, n) in Cells(v)
    ensures (s.entityIds[l], n) in s.fieldIds && (l, n) !in Cells(v) ==>
      var f := s.fieldIds[(s.entityIds[l], n)];
      FieldOfSource(start, source, f) && CellOf(start, f) == (l, n) && s.tables.fields[f] == start.fields[f]
  {
    hide UniqueEntities;
    hide UniqueFields;
    hide EntityNamed;
    hide EntityTracked;
    var e := s.entityIds[l];
    assert EntityAt(s.tables, source, l, e);
    if (e, n) in s.fieldIds {
      KnownFieldRow(start, source, s, v, l, n);
    }
    if (l, n) in Cells(v) {
      assert FieldTracked(s, l, n, v[l].fields[n]);
    }
    if (l, n) in KnownCells(start, source) {
      var f :| f in start.fields && FieldOfSource(start, source, f) && CellOf(start, f) == (l, n);
      KnownCellRow(start, source, s, v, l, f);
    }
  }

  lemma KnownFieldRow(start: Tables, source: int, s: Scan, v: View, l: string, n: string)
    requires Valid(start) && Tracks(start, source, s, v) && l in v && l in s.entityIds
    requires (s.entityIds[l], n) in s.fieldIds
    ensures var f := s.fieldIds[(s.entityIds[l], n)];
      (l, n) in Cells(v)
      || (FieldOfSource(start, source, f) && CellOf(start, f) == (l, n) && s.tables.fields[f] == start.fields[f])
  {
    hide UniqueEntities;
    hide UniqueFields;
    hide EntitiesTracked;
    var key := (s.entityIds[l], n);
    var f := s.fieldIds[key];
    assert EntityAt(s.tables, source, l, key.0);
    assert FieldAt(s.tables, key, f);
    if key !in s.seenFields {
      assert SameFieldKey(start.fields[f], s.tables.fields[f]);
      assert key.0 in start.entities && SameEntityKey(start.entities[key.0], s.tables.entities[key.0]);
    }
  }

  lemma KnownCellRow(start: Tables, source: int, s: Scan, v: View, l: string, f: Id)
    requires Valid(start) && Tracks(start, source, s, v) && l in v && l in s.entityIds
    requires FieldOfSource(start, source, f) && CellOf(start, f).0 == l
    ensures (s.entityIds[l], CellOf(start, f).1) in s.fieldIds
  {
    hide UniqueEntities;
    hide UniqueFields;
    hide EntitiesTracked;
    hide FieldsTracked;
    hide EntityAt;
    hide FieldAt;
    hide FieldHashed;
    hide EntityHashed;
    var e := start.fields[f].entity;
    assert SameEntityKey(start.entities[e], s.tables.entities[e]);
    assert OfSource(s.tables, source, e);
    assert Lookup(s.entityIds, l) == Some(e);
    assert SameFieldKey(start.fields[f], s.tables.fields[f]);
  }

  // ---- Rows created, and rows seen ----

  lemma AddedSize<T>(a: set<T>, x: T, k: set<T>)
    ensures |(a + {x}) - k| == |a - k| + if x in a || x in k then 0 else 1
  {
    if x in a || x in k {
      assert (a + {x}) - k == a - k;
    } else {
      assert (a + {x}) - k == (a - k) + {x};
    }
  }

  lemma AddEntityCells(v: View, m: ModelMetadata)
    ensures Cells(AddEntity(v, m)) == Cells(v) && AddEntity(v, m).Keys == v.Keys + {m.modelLabel}
  {
  }

  lemma AddFieldCells(v: View, l: string, f: FieldMetadata)
    requires l in v
    ensures Cells(AddField(v, l, f)) == Cells(v) + {(l, f.name)} && AddField(v, l, f).Keys == v.Keys
  {
    var w := AddField(v, l, f);
    forall c ensures c in Cells(w) <==> c in Cells(v) || c == (l, f.name) {
    }
  }

  ghost predicate CreatedCounted(start: Tables, source: int, s: Scan, v: View) {
    && s.counters.entitiesCreated == |v.Keys - KnownLabels(start, source)|
    && s.counters.fieldsCreated == |Cells(v) - KnownCells(start, source)|
  }

  lemma EntityAction(s: Scan, source: int, m: Listed, start: Tables, v: View)
    requires Valid(start) && Tracks(start, source, s, v) && Resolves(s)
    ensures var l := m.model.modelLabel; var action := UpsertEntity(s.tables, source, m, Lookup(s.entityIds, l)).2;
      && (action == Created <==> l !in KnownLabels(start, source) && l !in v)
      && ScanEntity(s, source, m).counters == CountEntity(s.counters, action)
  {
    hide Tracks;
    hide CountEntity;
    KnownEntity(start, source, s, v, m.model.modelLabel);
  }

  lemma FieldAction(s: Scan, source: int, l: string, f: FieldMetadata, start: Tables, v: View)
    requires Valid(start) && Tracks(start, source, s, v) && Resolves(s) && l in v && l in s.entityIds
    ensures var e := s.entityIds[l]; var action := UpsertField(s.tables, e, f, Lookup(s.fieldIds, (e, f.name))).2;
      && (action == Created <==> (l, f.name) !in KnownCells(start, source) && (l, f.name) !in Cells(v))
      && ScanField(s, e, f).counters == CountField(s.counters, action)
  {
    hide Tracks;
    hide CountField;
    KnownField(start, source, s, v, l, f.name);
  }

  lemma {:induction false} FieldsCounted(start: Tables, source: int, s: Scan, v: View, l: string,
      fields: seq<FieldMetadata>)
    requires Valid(start) && Tracks(start, source, s, v) && Resolves(s) && l in v && l in s.entityIds
    requires CreatedCounted(start, source, s, v)
    ensures var r := ScanFields(s, s.entityIds[l], fields);
      && CreatedCounted(start, source, r, AddFields(v, l, fields))
      && r.counters.fieldsSeen == s.counters.fieldsSeen + |fields|
      && r.counters.entitiesSeen == s.counters.entitiesSeen
  {
    hide Tracks;
    hide ScanField;
    hide AddField;
    hide Cells;
    hide KnownCells;
    hide KnownLabels;
    hide UpsertField;
    if fields != [] {
      var n := |fields| - 1;
      var e, f := s.entityIds[l], fields[n];
      FieldsCounted(start, source, s, v, l, fields[..n]);
      TracksFields(start, source, s, v, l, fields[..n]);
      var s1, v1 := ScanFields(s, e, fields[..n]), AddFields(v, l, fields[..n]);
      FieldAction(s1, source, l, f, start, v1);
      AddFieldCells(v1, l, f);
      AddedSize(Cells(v1), (l, f.name), KnownCells(start, source));
    }
  }

  lemma EntityCounted(start: Tables, source: int, s: Scan, v: View, m: Listed)
    requires Valid(start) && Tracks(start, source, s, v) && Resolves(s) && CreatedCounted(start, source, s, v)
    ensures CreatedCounted(start, source, ScanEntity(s, source, m), AddEntity(v, m.model))
    ensures var c := ScanEntity(s, source, m).counters;
      c.entitiesSeen == s.counters.entitiesSeen + 1 && c.fieldsSeen == s.counters.fieldsSeen
  {
    hide Tracks;
    hide Resolves;
    hide ScanEntity;
    hide AddEntity;
    hide Cells;
    hide KnownCells;
    hide KnownLabels;
    hide UpsertEntity;
    hide Valid;
    EntityAction(s, source, m, start, v);
    AddEntityCells(v, m.model);
    AddedSize(v.Keys, m.model.modelLabel, KnownLabels(start, source));
  }

  lemma {:induction false} ModelsCounted(start: Tables, source: int, models: seq<Listed>)
    requires Valid(start)
    ensures var s := ScanModels(Open(start, source), source, models);
      && CreatedCounted(start, source, s, PayloadView(models))
      && s.counters.entitiesSeen == |models| && s.counters.fieldsSeen == FieldCount(models)
  {
    hide Tracks;
    hide Resolves;
    hide ScanEntity;
    hide ScanFields;
    hide AddEntity;
    hide AddFields;
    hide CreatedCounted;
    hide Valid;
    ValidKeys(start);
    TracksOpen(start, source);
    if models == [] {
      NothingCounted(start, source);
    } else {
      var n := |models| - 1;
      var m := models[n];
      ModelsCounted(start, source, models[..n]);
      TracksModels(start, source, Open(start, source), models[..n]);
      var s, v := ScanModels(Open(start, source), source, models[..n]), PayloadView(models[..n]);
      TracksEntity(start, source, s, v, m);
      EntityCounted(start, source, s, v, m);
      AddEntityCells(v, m.model);
      FieldsCounted(start, source, ScanEntity(s, source, m), AddEntity(v, m.model), m.model.modelLabel, m.model.fields);
    }
  }

  lemma NothingCounted(start: Tables, source: int)
    requires Valid(start)
    ensures CreatedCounted(start, source, Open(start, source), map[])
  {
    assert Cells(map[]) == {};
  }
}
