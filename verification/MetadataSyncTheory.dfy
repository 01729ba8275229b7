/** What a synchronisation achieves: the visible view, the rows left alone, and the counters. */
module MetadataSyncTheory {
  import opened Prelude
  import opened Metadata
  import opened MetadataSync

  /** The constraints of the tables, ids below the next one, and hashes that belong to their rows. */
  ghost predicate Valid(t: Tables) {
    && UniqueEntities(t) && UniqueFields(t)
    && (forall e :: e in t.entities ==> e.value < t.nextEntity && EntityHashed(t.entities[e]))
    && (forall f :: f in t.fields ==>
         f.value < t.nextField && FieldHashed(t.fields[f]) && t.fields[f].entity in t.entities)
  }

  predicate EntityHashed(row: EntityRow) {
    row.hash == EntityHash(LabelPrefix(row.modelLabel), row.modelLabel, row.attributes)
  }

  predicate FieldHashed(row: FieldRow) {
    row.hash == FieldHash(row.name, row.attributes)
  }

  // ---- The invariant of a pass ----

  predicate EntityShows(t: Tables, e: Id, attributes: EntityAttributes) {
    e in t.entities && t.entities[e].active && t.entities[e].attributes == attributes
  }

  predicate FieldShows(t: Tables, f: Id, attributes: FieldAttributes) {
    f in t.fields && t.fields[f].active && t.fields[f].attributes == attributes
  }

  predicate EntityTracked(s: Scan, l: string, attributes: EntityAttributes) {
    && Lookup(s.entityIds, l).Some? && s.entityIds[l] in s.seenEntities
    && EntityShows(s.tables, s.entityIds[l], attributes)
  }

  predicate EntityNamed(t: Tables, source: int, v: View, e: Id) {
    OfSource(t, source, e) && t.entities[e].modelLabel in v
  }

  /** Every entity of the view has its row; the rows seen are those of the view. */
  ghost predicate EntitiesTracked(source: int, s: Scan, v: View) {
    && s.seenLabels == v.Keys
    && (forall l :: l in v ==> EntityTracked(s, l, v[l].attributes))
    && (forall e :: e in s.seenEntities ==> EntityNamed(s.tables, source, v, e))
  }

  predicate FieldTracked(s: Scan, l: string, n: string, attributes: FieldAttributes) {
    && l in s.entityIds && (s.entityIds[l], n) in s.seenFields
    && Lookup(s.fieldIds, (s.entityIds[l], n)).Some?
    && FieldShows(s.tables, s.fieldIds[(s.entityIds[l], n)], attributes)
  }

  /** Every field of the view has its row; the field keys seen are those of the view. */
  ghost predicate FieldsTracked(s: Scan, v: View) {
    && (forall l, n :: l in v && n in v[l].fields ==> FieldTracked(s, l, n, v[l].fields[n]))
    && (forall k :: k in s.seenFields ==> k.0 in s.seenEntities)
    && (forall l, n :: l in v && l in s.entityIds && (s.entityIds[l], n) in s.seenFields ==> n in v[l].fields)
  }

  /** Entities the snapshot did not name keep their rows; new rows are of entities it named. */
  ghost predicate EntitiesKept(start: Tables, source: int, s: Scan, v: View) {
    && (forall e :: e in start.entities ==>
         e in s.tables.entities && SameEntityKey(start.entities[e], s.tables.entities[e]))
    && (forall e ::
          e in start.entities && !(start.entities[e].source == source && start.entities[e].modelLabel in v) ==>
          s.tables.entities[e] == start.entities[e])
    && (forall e :: e in s.tables.entities && e !in start.entities ==>
          s.tables.entities[e].source == source && s.tables.entities[e].modelLabel in v)
  }

  ghost predicate FieldsKept(start: Tables, s: Scan) {
    && (forall f :: f in start.fields ==> f in s.tables.fields && SameFieldKey(start.fields[f], s.tables.fields[f]))
    && (forall f :: f in start.fields && (start.fields[f].entity, start.fields[f].name) !in s.seenFields ==>
          s.tables.fields[f] == start.fields[f])
    && (forall f :: f in s.tables.fields && f !in start.fields ==>
          (s.tables.fields[f].entity, s.tables.fields[f].name) in s.seenFields)
  }

  ghost predicate Indexed(source: int, s: Scan) {
    EntityIndex(s.tables, source, s.entityIds) && FieldIndex(s.tables, source, s.fieldIds)
  }

  ghost predicate Tracks(start: Tables, source: int, s: Scan, v: View) {
    && Valid(s.tables) && Indexed(source, s)
    && EntitiesTracked(source, s, v) && FieldsTracked(s, v)
    && EntitiesKept(start, source, s, v) && FieldsKept(start, s)
  }

  lemma TracksIndexed(start: Tables, source: int, s: Scan, v: View)
    requires Tracks(start, source, s, v)
    ensures Indexed(source, s) && Valid(s.tables)
  {
  }

  lemma TracksOpen(t: Tables, source: int)
    requires Valid(t)
    ensures Tracks(t, source, Open(t, source), map[])
  {
  }

  // ---- One entity ----

  /** What upserting an entity does to the tables, whichever branch runs. */
  ghost predicate EntityStep(t: Tables, u: Tables, source: int, l: string, index: map<string, Id>, id: Id,
      a: EntityAttributes)
  {
    && EntityAt(u, source, l, id) && EntityShows(u, id, a)
    && (if l in index then id == index[l] else id !in t.entities)
    && (forall e :: e in u.entities <==> e in t.entities || e == id)
    && (forall e :: e in t.entities && e != id ==> u.entities[e] == t.entities[e])
    && (id in t.entities ==> SameEntityKey(t.entities[id], u.entities[id]))
    && u.fields == t.fields
  }

  lemma UpsertEntityEffect(t: Tables, source: int, m: Listed, index: map<string, Id>)
    requires Valid(t) && EntityIndex(t, source, index)
    ensures var l := m.model.modelLabel; var (u, id, action) := UpsertEntity(t, source, m, Lookup(index, l));
      && EntityStep(t, u, source, l, index, id, m.model.attributes)
      && Valid(u) && EntityIndex(u, source, index[l := id])
      && (action == Created <==> l !in index)
  {
    hide UniqueEntities;
    hide UniqueFields;
    var l := m.model.modelLabel;
    var (u, id, action) := UpsertEntity(t, source, m, Lookup(index, l));
    hide EntityIndex;
    UpsertEntitySteps(t, source, m, index);
    UpsertEntityRows(t, source, m, index);
    hide UpsertEntity;
    hide EntityStep;
    hide FieldHashed;
    hide EntityHashed;
    EntityIndexStep(t, u, source, l, index, id, m.model.attributes);
    EntityStepUnique(t, u, source, l, index, id, m.model.attributes);
    SameFieldsUnique(t, u);
  }

  lemma SameFieldsUnique(t: Tables, u: Tables)
    requires UniqueFields(t) && t.fields == u.fields
    ensures UniqueFields(u)
  {
  }

  lemma UpsertEntityRows(t: Tables, source: int, m: Listed, index: map<string, Id>)
    requires Valid(t) && EntityIndex(t, source, index)
    ensures var l := m.model.modelLabel; var (u, id, action) := UpsertEntity(t, source, m, Lookup(index, l));
      && u.fields == t.fields && u.nextField == t.nextField && t.entities.Keys <= u.entities.Keys
      && (forall e :: e in u.entities ==> e.value < u.nextEntity && EntityHashed(u.entities[e]))
      && (action == Created <==> l !in index)
  {
    hide UniqueFields;
    hide UniqueEntities;
    if m.model.modelLabel in index {
      assert EntityAt(t, source, m.model.modelLabel, index[m.model.modelLabel]);
    }
  }

  lemma UpsertEntitySteps(t: Tables, source: int, m: Listed, index: map<string, Id>)
    requires Valid(t) && EntityIndex(t, source, index)
    ensures var l := m.model.modelLabel; var (u, id, action) := UpsertEntity(t, source, m, Lookup(index, l));
      EntityStep(t, u, source, l, index, id, m.model.attributes)
  {
    hide UniqueFields;
    hide UniqueEntities;
    var l := m.model.modelLabel;
    if l in index {
      assert EntityAt(t, source, l, index[l]);
    }
  }

  lemma EntityStepUnique(t: Tables, u: Tables, source: int, l: string, index: map<string, Id>, id: Id,
      a: EntityAttributes)
    requires UniqueEntities(t) && EntityIndex(t, source, index) && EntityStep(t, u, source, l, index, id, a)
    ensures UniqueEntities(u)
  {
    forall d, e | d in u.entities && e in u.entities && SameEntityKey(u.entities[d], u.entities[e]) ensures d == e {
      if d != id && e == id {
        assert OfSource(t, source, d);
      } else if d == id && e != id {
        assert OfSource(t, source, e);
      }
    }
  }

  lemma EntityIndexStep(t: Tables, u: Tables, source: int, l: string, index: map<string, Id>, id: Id,
      a: EntityAttributes)
    requires EntityIndex(t, source, index) && EntityStep(t, u, source, l, index, id, a)
    ensures EntityIndex(u, source, index[l := id])
  {
    var next := index[l := id];
    forall e | OfSource(u, source, e) ensures Lookup(next, u.entities[e].modelLabel) == Some(e) {
      if e != id {
        assert OfSource(t, source, e);
      }
    }
    forall k | k in next ensures EntityAt(u, source, k, next[k]) {
      if k != l {
        assert EntityAt(t, source, k, index[k]);
      }
    }
  }

  /** The row of another label is another row, and stays as it was. */
  lemma OtherEntity(t: Tables, u: Tables, source: int, l: string, index: map<string, Id>, id: Id, a: EntityAttributes,
      k: string)
    requires EntityIndex(t, source, index) && EntityStep(t, u, source, l, index, id, a)
    requires k in index && k != l
    ensures index[k] != id && index[k] in t.entities && index[k] in u.entities
    ensures u.entities[index[k]] == t.entities[index[k]]
  {
    assert EntityAt(t, source, k, index[k]);
    if l in index {
      assert EntityAt(t, source, l, index[l]);
    }
  }

  lemma MemberOfAdded<T>(a: set<T>, x: T, e: T)
    requires e in a + {x}
    ensures e in a || e == x
  {
  }

  lemma EntityStepLabels(source: int, s: Scan, r: Scan, v: View, m: ModelMetadata, id: Id)
    requires EntityIndex(s.tables, source, s.entityIds) && EntitiesTracked(source, s, v)
    requires EntityStep(s.tables, r.tables, source, m.modelLabel, s.entityIds, id, m.attributes)
    requires r.entityIds == s.entityIds[m.modelLabel := id] && r.seenEntities == s.seenEntities + {id}
    ensures forall l :: l in AddEntity(v, m) ==> EntityTracked(r, l, AddEntity(v, m)[l].attributes)
  {
    hide EntityIndex;
    hide EntityAt;
    var w := AddEntity(v, m);
    forall l | l in w ensures EntityTracked(r, l, w[l].attributes) {
      if l != m.modelLabel {
        OtherEntityTracked(source, s, r, v, m, id, l);
      }
    }
  }

  lemma OtherEntityTracked(source: int, s: Scan, r: Scan, v: View, m: ModelMetadata, id: Id, l: string)
    requires EntityIndex(s.tables, source, s.entityIds) && EntitiesTracked(source, s, v)
    requires EntityStep(s.tables, r.tables, source, m.modelLabel, s.entityIds, id, m.attributes)
    requires r.entityIds == s.entityIds[m.modelLabel := id] && r.seenEntities == s.seenEntities + {id}
    requires l in v && l != m.modelLabel
    ensures EntityTracked(r, l, v[l].attributes)
  {
    hide EntityIndex;
    hide EntityStep;
    assert EntityTracked(s, l, v[l].attributes);
    OtherEntity(s.tables, r.tables, source, m.modelLabel, s.entityIds, id, m.attributes, l);
  }

  lemma EntityStepSeen(source: int, s: Scan, r: Scan, v: View, m: ModelMetadata, id: Id)
    requires EntityIndex(s.tables, source, s.entityIds) && EntitiesTracked(source, s, v)
    requires EntityStep(s.tables, r.tables, source, m.modelLabel, s.entityIds, id, m.attributes)
    requires r.seenEntities == s.seenEntities + {id}
    ensures forall e :: e in r.seenEntities ==> EntityNamed(r.tables, source, AddEntity(v, m), e)
  {
    hide EntityIndex;
    hide EntityAt;
    EntityIdNamed(s.tables, r.tables, source, m.modelLabel, s.entityIds, id, m.attributes);
    forall e | e in r.seenEntities ensures EntityNamed(r.tables, source, AddEntity(v, m), e) {
      MemberOfAdded(s.seenEntities, id, e);
      if e != id {
        assert EntityNamed(s.tables, source, v, e);
        assert EntityNamed(r.tables, source, v, e);
      }
    }
  }

  lemma EntityStepTracked(source: int, s: Scan, r: Scan, v: View, m: ModelMetadata, id: Id)
    requires EntityIndex(s.tables, source, s.entityIds) && EntitiesTracked(source, s, v)
    requires EntityStep(s.tables, r.tables, source, m.modelLabel, s.entityIds, id, m.attributes)
    requires r.entityIds == s.entityIds[m.modelLabel := id]
    requires r.seenLabels == s.seenLabels + {m.modelLabel} && r.seenEntities == s.seenEntities + {id}
    ensures EntitiesTracked(source, r, AddEntity(v, m))
  {
    hide EntityIndex;
    hide EntityStep;
    hide EntityTracked;
    hide EntityNamed;
    EntityStepLabels(source, s, r, v, m, id);
    EntityStepSeen(source, s, r, v, m, id);
    assert r.seenLabels == AddEntity(v, m).Keys;
  }

  lemma EntityIdNamed(t: Tables, u: Tables, source: int, l: string, index: map<string, Id>, id: Id, a: EntityAttributes)
    requires EntityStep(t, u, source, l, index, id, a)
    ensures OfSource(u, source, id) && u.entities[id].modelLabel == l
  {
  }

  lemma EntityStepShown(source: int, s: Scan, r: Scan, v: View, m: ModelMetadata, id: Id)
    requires EntityIndex(s.tables, source, s.entityIds) && EntitiesTracked(source, s, v) && FieldsTracked(s, v)
    requires EntityStep(s.tables, r.tables, source, m.modelLabel, s.entityIds, id, m.attributes)
    requires r == s.(tables := r.tables, entityIds := s.entityIds[m.modelLabel := id], seenLabels := r.seenLabels,
                     seenEntities := s.seenEntities + {id}, counters := r.counters)
    ensures forall l, n :: l in AddEntity(v, m) && n in AddEntity(v, m)[l].fields ==>
      FieldTracked(r, l, n, AddEntity(v, m)[l].fields[n])
  {
    hide EntityIndex;
    hide EntitiesTracked;
    hide EntityAt;
    var w := AddEntity(v, m);
    forall l, n | l in w && n in w[l].fields ensures FieldTracked(r, l, n, w[l].fields[n]) {
      assert FieldTracked(s, l, n, v[l].fields[n]);
    }
  }

  lemma EntityStepFields(source: int, s: Scan, r: Scan, v: View, m: ModelMetadata, id: Id)
    requires EntityIndex(s.tables, source, s.entityIds) && EntitiesTracked(source, s, v) && FieldsTracked(s, v)
    requires EntityStep(s.tables, r.tables, source, m.modelLabel, s.entityIds, id, m.attributes)
    requires r == s.(tables := r.tables, entityIds := s.entityIds[m.modelLabel := id], seenLabels := r.seenLabels,
                     seenEntities := s.seenEntities + {id}, counters := r.counters)
    ensures FieldsTracked(r, AddEntity(v, m))
  {
    hide FieldTracked;
    hide EntityTracked;
    hide EntityShows;
    EntityStepShown(source, s, r, v, m, id);
    var w := AddEntity(v, m);
    var here := m.modelLabel;
    forall l, n | l in w && l in r.entityIds && (r.entityIds[l], n) in r.seenFields ensures n in w[l].fields {
      var k := (r.entityIds[l], n);
      assert k.0 in s.seenEntities;
      assert EntityNamed(s.tables, source, v, k.0);
      assert Lookup(s.entityIds, s.tables.entities[k.0].modelLabel) == Some(k.0);
    }
  }

  lemma EntityStepKept(start: Tables, source: int, s: Scan, r: Scan, v: View, m: ModelMetadata, id: Id)
    requires EntityIndex(s.tables, source, s.entityIds) && EntitiesKept(start, source, s, v)
    requires EntityStep(s.tables, r.tables, source, m.modelLabel, s.entityIds, id, m.attributes)
    ensures EntitiesKept(start, source, r, AddEntity(v, m))
  {
    assert id in start.entities ==> SameEntityKey(start.entities[id], s.tables.entities[id]);
  }

  lemma TracksEntity(start: Tables, source: int, s: Scan, v: View, m: Listed)
    requires Tracks(start, source, s, v) && Resolves(s)
    ensures Tracks(start, source, ScanEntity(s, source, m), AddEntity(v, m.model))
  {
    hide UpsertEntity;
    hide CountEntity;
    hide EntitiesTracked;
    hide EntitiesKept;
    hide AddEntity;
    hide EntityIndex;
    hide FieldIndex;
    hide FieldsTracked;
    hide Valid;
    hide EntityAt;
    hide EntityShows;
    var l := m.model.modelLabel;
    var (u, id, action) := UpsertEntity(s.tables, source, m, Lookup(s.entityIds, l));
    UpsertEntityEffect(s.tables, source, m, s.entityIds);
    var r := ScanEntity(s, source, m);
    EntityStepFieldIndex(s.tables, u, source, l, s.entityIds, id, m.model.attributes, s.fieldIds);
    EntityStepTracked(source, s, r, v, m.model, id);
    EntityStepFields(source, s, r, v, m.model, id);
    EntityStepKept(start, source, s, r, v, m.model, id);
  }

  lemma EntityStepFieldIndex(t: Tables, u: Tables, source: int, l: string, index: map<string, Id>, id: Id,
      a: EntityAttributes, fieldIds: map<(Id, string), Id>)
    requires Valid(t) && FieldIndex(t, source, fieldIds) && EntityStep(t, u, source, l, index, id, a)
    ensures FieldIndex(u, source, fieldIds)
  {
    forall f | f in u.fields && OfSource(u, source, u.fields[f].entity)
      ensures Lookup(fieldIds, (u.fields[f].entity, u.fields[f].name)) == Some(f)
    {
      assert t.fields[f].entity in t.entities;
      assert OfSource(t, source, t.fields[f].entity);
    }
  }

  // ---- One field ----

  ghost predicate FieldStep(t: Tables, u: Tables, key: (Id, string), index: map<(Id, string), Id>, id: Id,
      a: FieldAttributes)
  {
    && FieldAt(u, key, id) && FieldShows(u, id, a)
    && (if key in index then id == index[key] else id !in t.fields)
    && (forall f :: f in u.fields <==> f in t.fields || f == id)
    && (forall f :: f in t.fields && f != id ==> u.fields[f] == t.fields[f])
    && (id in t.fields ==> SameFieldKey(t.fields[id], u.fields[id]))
    && u.entities == t.entities
  }

  lemma UpsertFieldRows(t: Tables, source: int, e: Id, f: FieldMetadata, index: map<(Id, string), Id>)
    requires Valid(t) && FieldIndex(t, source, index) && OfSource(t, source, e)
    ensures var (u, id, action) := UpsertField(t, e, f, Lookup(index, (e, f.name)));
      && u.entities == t.entities && u.nextEntity == t.nextEntity
      && (forall g :: g in u.fields ==>
           g.value < u.nextField && FieldHashed(u.fields[g]) && u.fields[g].entity in u.entities)
      && (action == Created <==> (e, f.name) !in index)
  {
    hide UniqueEntities;
    hide UniqueFields;
    if (e, f.name) in index {
      assert FieldAt(t, (e, f.name), index[(e, f.name)]);
    }
  }

  lemma UpsertFieldSteps(t: Tables, source: int, e: Id, f: FieldMetadata, index: map<(Id, string), Id>)
    requires Valid(t) && FieldIndex(t, source, index)
    ensures var (u, id, action) := UpsertField(t, e, f, Lookup(index, (e, f.name)));
      FieldStep(t, u, (e, f.name), index, id, Normalize(f.attributes))
  {
    hide UniqueFields;
    hide UniqueEntities;
    if (e, f.name) in index {
      assert FieldAt(t, (e, f.name), index[(e, f.name)]);
    }
  }

  lemma FieldStepUnique(t: Tables, u: Tables, source: int, key: (Id, string), index: map<(Id, string), Id>, id: Id,
      a: FieldAttributes)
    requires UniqueFields(t) && FieldIndex(t, source, index) && FieldStep(t, u, key, index, id, a)
    requires OfSource(t, source, key.0)
    ensures UniqueFields(u)
  {
    forall f | f in t.fields && FieldAt(t, key, f) ensures Lookup(index, key) == Some(f) {
      assert OfSource(t, source, t.fields[f].entity);
    }
  }

  lemma FieldIndexStep(t: Tables, u: Tables, source: int, key: (Id, string), index: map<(Id, string), Id>, id: Id,
      a: FieldAttributes)
    requires FieldIndex(t, source, index) && FieldStep(t, u, key, index, id, a)
    requires OfSource(t, source, key.0)
    ensures FieldIndex(u, source, index[key := id])
  {
    var next := index[key := id];
    forall f | f in u.fields && OfSource(u, source, u.fields[f].entity)
      ensures Lookup(next, (u.fields[f].entity, u.fields[f].name)) == Some(f)
    {
      if f != id {
        assert f in t.fields && OfSource(t, source, t.fields[f].entity);
      }
    }
    forall k | k in next ensures FieldAt(u, k, next[k]) && OfSource(u, source, k.0) {
      if k != key {
        assert FieldAt(t, k, index[k]);
      }
    }
  }

  lemma UpsertFieldEffect(t: Tables, source: int, e: Id, f: FieldMetadata, index: map<(Id, string), Id>)
    requires Valid(t) && FieldIndex(t, source, index) && OfSource(t, source, e)
    ensures var (u, id, action) := UpsertField(t, e, f, Lookup(index, (e, f.name)));
      && FieldStep(t, u, (e, f.name), index, id, Normalize(f.attributes))
      && Valid(u) && FieldIndex(u, source, index[(e, f.name) := id])
      && (action == Created <==> (e, f.name) !in index)
  {
    hide UniqueEntities;
    hide UniqueFields;
    var key := (e, f.name);
    var (u, id, action) := UpsertField(t, e, f, Lookup(index, key));
    hide FieldIndex;
    UpsertFieldSteps(t, source, e, f, index);
    UpsertFieldRows(t, source, e, f, index);
    hide UpsertField;
    hide FieldStep;
    hide Normalize;
    hide FieldHashed;
    hide EntityHashed;
    FieldIndexStep(t, u, source, key, index, id, Normalize(f.attributes));
    FieldStepUnique(t, u, source, key, index, id, Normalize(f.attributes));
    SameEntitiesUnique(t, u);
  }

  lemma SameEntitiesUnique(t: Tables, u: Tables)
    requires UniqueEntities(t) && t.entities == u.entities
    ensures UniqueEntities(u)
  {
  }

  /** Two labels of one source never share a row. */
  lemma IdsDiffer(t: Tables, source: int, index: map<string, Id>, k: string, l: string)
    requires EntityIndex(t, source, index) && k in index && l in index && k != l
    ensures index[k] != index[l]
  {
    assert EntityAt(t, source, k, index[k]) && EntityAt(t, source, l, index[l]);
  }

  /** The row of another key is another row, and stays as it was. */
  lemma OtherField(t: Tables, u: Tables, source: int, key: (Id, string), index: map<(Id, string), Id>, id: Id,
      a: FieldAttributes, k: (Id, string))
    requires FieldIndex(t, source, index) && FieldStep(t, u, key, index, id, a)
    requires k in index && k != key
    ensures index[k] != id && index[k] in t.fields && u.fields[index[k]] == t.fields[index[k]]
  {
    assert FieldAt(t, k, index[k]);
    if key in index {
      assert FieldAt(t, key, index[key]);
    }
  }

  lemma FieldStepShown(source: int, s: Scan, r: Scan, v: View, l: string, n: string, id: Id, a: FieldAttributes,
      f: FieldMetadata)
    requires Indexed(source, s) && EntitiesTracked(source, s, v) && FieldsTracked(s, v) && l in v
    requires l in s.entityIds && n == f.name && a == Normalize(f.attributes)
    requires FieldStep(s.tables, r.tables, (s.entityIds[l], n), s.fieldIds, id, a)
    requires r == s.(tables := r.tables, fieldIds := s.fieldIds[(s.entityIds[l], n) := id],
                     seenFields := s.seenFields + {(s.entityIds[l], n)}, counters := r.counters)
    ensures forall l2, n2 :: l2 in AddField(v, l, f) && n2 in AddField(v, l, f)[l2].fields ==>
      FieldTracked(r, l2, n2, AddField(v, l, f)[l2].fields[n2])
  {
    hide EntityIndex;
    hide FieldIndex;
    hide FieldAt;
    hide EntitiesTracked;
    var w := AddField(v, l, f);
    var key := (s.entityIds[l], n);
    forall l2, n2 | l2 in w && n2 in w[l2].fields ensures FieldTracked(r, l2, n2, w[l2].fields[n2]) {
      if l2 != l || n2 != n {
        assert FieldTracked(s, l2, n2, v[l2].fields[n2]);
        if l2 != l {
          IdsDiffer(s.tables, source, s.entityIds, l2, l);
        }
        OtherField(s.tables, r.tables, source, key, s.fieldIds, id, a, (s.entityIds[l2], n2));
      }
    }
  }

  lemma FieldStepTracked(source: int, s: Scan, r: Scan, v: View, l: string, n: string, id: Id, a: FieldAttributes,
      f: FieldMetadata)
    requires Indexed(source, s) && EntitiesTracked(source, s, v) && FieldsTracked(s, v) && l in v
    requires l in s.entityIds && n == f.name && a == Normalize(f.attributes)
    requires FieldStep(s.tables, r.tables, (s.entityIds[l], n), s.fieldIds, id, a)
    requires r == s.(tables := r.tables, fieldIds := s.fieldIds[(s.entityIds[l], n) := id],
                     seenFields := s.seenFields + {(s.entityIds[l], n)}, counters := r.counters)
    ensures FieldsTracked(r, AddField(v, l, f))
  {
    hide EntityIndex;
    hide FieldIndex;
    hide FieldStep;
    hide FieldTracked;
    hide EntityShows;
    hide EntityNamed;
    FieldStepShown(source, s, r, v, l, n, id, a, f);
    var w := AddField(v, l, f);
    forall l2, n2 | l2 in w && l2 in r.entityIds && (r.entityIds[l2], n2) in r.seenFields ensures n2 in w[l2].fields {
      if l2 != l {
        IdsDiffer(s.tables, source, s.entityIds, l2, l);
      }
    }
    assert EntityTracked(s, l, v[l].attributes);
  }

  lemma SameEntitiesTracked(source: int, s: Scan, r: Scan, v: View, w: View)
    requires EntitiesTracked(source, s, v)
    requires v.Keys == w.Keys && forall k :: k in v ==> v[k].attributes == w[k].attributes
    requires r.tables.entities == s.tables.entities && r.entityIds == s.entityIds
    requires r.seenLabels == s.seenLabels && r.seenEntities == s.seenEntities
    ensures EntitiesTracked(source, r, w)
  {
    forall k ensures k in v <==> k in w {
      assert k in v <==> k in v.Keys;
    }
    forall k | k in w ensures EntityTracked(r, k, w[k].attributes) {
      assert EntityTracked(s, k, v[k].attributes);
    }
    forall e | e in r.seenEntities ensures EntityNamed(r.tables, source, w, e) {
      assert EntityNamed(s.tables, source, v, e);
    }
  }

  lemma AddFieldSameEntities(v: View, l: string, f: FieldMetadata)
    requires l in v
    ensures v.Keys == AddField(v, l, f).Keys
    ensures forall k :: k in v ==> v[k].attributes == AddField(v, l, f)[k].attributes
  {
  }

  lemma FieldStepKept(start: Tables, source: int, s: Scan, r: Scan, v: View, l: string, n: string, id: Id,
      a: FieldAttributes)
    requires FieldIndex(s.tables, source, s.fieldIds) && FieldsKept(start, s) && l in s.entityIds
    requires FieldStep(s.tables, r.tables, (s.entityIds[l], n), s.fieldIds, id, a)
    requires r.seenFields == s.seenFields + {(s.entityIds[l], n)}
    ensures FieldsKept(start, r)
  {
    assert id in start.fields ==> SameFieldKey(start.fields[id], s.tables.fields[id]);
  }

  lemma TracksField(start: Tables, source: int, s: Scan, v: View, l: string, f: FieldMetadata)
    requires Tracks(start, source, s, v) && Resolves(s) && l in v && l in s.entityIds
    ensures Tracks(start, source, ScanField(s, s.entityIds[l], f), AddField(v, l, f))
  {
    hide UpsertField;
    hide CountField;
    hide EntitiesTracked;
    hide FieldsTracked;
    hide EntitiesKept;
    hide FieldsKept;
    hide FieldIndex;
    hide Valid;
    var e := s.entityIds[l];
    assert OfSource(s.tables, source, e) by {
      assert EntityAt(s.tables, source, l, e);
    }
    var (u, id, action) := UpsertField(s.tables, e, f, Lookup(s.fieldIds, (e, f.name)));
    UpsertFieldEffect(s.tables, source, e, f, s.fieldIds);
    var r := ScanField(s, e, f);
    FieldStepTracked(source, s, r, v, l, f.name, id, Normalize(f.attributes), f);
    AddFieldSameEntities(v, l, f);
    SameEntitiesTracked(source, s, r, v, AddField(v, l, f));
    FieldStepKept(start, source, s, r, v, l, f.name, id, Normalize(f.attributes));
    SameEntitiesKept(start, source, s, r, v, AddField(v, l, f));
    SameEntityIndex(s.tables, u, source, s.entityIds);
  }

  lemma SameEntitiesKept(start: Tables, source: int, s: Scan, r: Scan, v: View, w: View)
    requires EntitiesKept(start, source, s, v) && s.tables.entities == r.tables.entities && v.Keys == w.Keys
    ensures EntitiesKept(start, source, r, w)
  {
    assert forall l :: l in v <==> l in v.Keys;
    assert forall l :: l in w <==> l in w.Keys;
  }

  lemma SameEntityIndex(t: Tables, u: Tables, source: int, index: map<string, Id>)
    requires EntityIndex(t, source, index) && t.entities == u.entities
    ensures EntityIndex(u, source, index)
  {
    forall l | l in index ensures EntityAt(u, source, l, index[l]) {
      assert EntityAt(t, source, l, index[l]);
    }
    forall e | OfSource(u, source, e) ensures Lookup(index, u.entities[e].modelLabel) == Some(e) {
      assert OfSource(t, source, e);
    }
  }

  // ---- A whole pass ----

  lemma {:induction false} TracksFields(start: Tables, source: int, s: Scan, v: View, l: string,
      fields: seq<FieldMetadata>)
    requires Tracks(start, source, s, v) && Resolves(s) && l in v && l in s.entityIds
    ensures Tracks(start, source, ScanFields(s, s.entityIds[l], fields), AddFields(v, l, fields))
  {
    hide Tracks;
    hide ScanField;
    hide AddField;
    if fields != [] {
      var n := |fields| - 1;
      TracksFields(start, source, s, v, l, fields[..n]);
      TracksField(start, source, ScanFields(s, s.entityIds[l], fields[..n]), AddFields(v, l, fields[..n]), l,
        fields[n]);
    }
  }

  lemma {:induction false} TracksModels(start: Tables, source: int, s: Scan, models: seq<Listed>)
    requires Tracks(start, source, s, map[]) && Resolves(s)
    ensures Tracks(start, source, ScanModels(s, source, models), PayloadView(models))
  {
    hide Tracks;
    hide ScanEntity;
    if models != [] {
      var n := |models| - 1;
      TracksModels(start, source, s, models[..n]);
      var before, v := ScanModels(s, source, models[..n]), PayloadView(models[..n]);
      TracksEntity(start, source, before, v, models[n]);
      TracksFields(start, source, ScanEntity(before, source, models[n]), AddEntity(v, models[n].model),
                   models[n].model.modelLabel, models[n].model.fields);
    }
  }
}
