/** The metadata tables and what one synchronisation does to them, step by step. */
module MetadataSync {
  import opened Prelude
  import opened Metadata

  /** The primary key of an entity or field row. */
  datatype Id = Id(value: int)

  datatype EntityRow = EntityRow(
    source: int, appLabel: string, modelLabel: string, attributes: EntityAttributes, active: bool, hash: EntityHash)

  datatype FieldRow = FieldRow(entity: Id, name: string, attributes: FieldAttributes, active: bool, hash: FieldHash)

  /** Rows by id, and the next id of each table. */
  datatype Tables = Tables(entities: map<Id, EntityRow>, fields: map<Id, FieldRow>, nextEntity: int, nextField: int)

  datatype Counters = Counters(
    entitiesSeen: int, fieldsSeen: int,
    entitiesCreated: int, entitiesUpdated: int, entitiesDeactivated: int,
    fieldsCreated: int, fieldsUpdated: int, fieldsDeactivated: int)

  const Zero := Counters(0, 0, 0, 0, 0, 0, 0, 0)

  datatype Action = Created | Updated | Unchanged

  // ---- Lookup maps ----

  predicate SameEntityKey(a: EntityRow, b: EntityRow) {
    a.source == b.source && a.modelLabel == b.modelLabel
  }

  predicate SameFieldKey(a: FieldRow, b: FieldRow) {
    a.entity == b.entity && a.name == b.name
  }

  /** Two rows of one source never carry the same model label. */
  ghost predicate UniqueEntities(t: Tables) {
    forall d, e :: d in t.entities && e in t.entities && SameEntityKey(t.entities[d], t.entities[e]) ==> d == e
  }

  ghost predicate UniqueFields(t: Tables) {
    forall f, g :: f in t.fields && g in t.fields && SameFieldKey(t.fields[f], t.fields[g]) ==> f == g
  }

  predicate EntityAt(t: Tables, source: int, modelLabel: string, e: Id) {
    e in t.entities && t.entities[e].source == source && t.entities[e].modelLabel == modelLabel
  }

  predicate FieldAt(t: Tables, key: (Id, string), f: Id) {
    f in t.fields && t.fields[f].entity == key.0 && t.fields[f].name == key.1
  }

  predicate OfSource(t: Tables, source: int, e: Id) {
    e in t.entities && t.entities[e].source == source
  }

  /** get_entities_by_source_id. */
  ghost predicate EntityIndex(t: Tables, source: int, index: map<string, Id>) {
    && (forall l :: l in index ==> EntityAt(t, source, l, index[l]))
    && (forall e :: OfSource(t, source, e) ==> Lookup(index, t.entities[e].modelLabel) == Some(e))
  }

  /** get_fields_by_entity_ids, over the entities of one source. */
  ghost predicate FieldIndex(t: Tables, source: int, index: map<(Id, string), Id>) {
    && (forall k :: k in index ==> FieldAt(t, k, index[k]) && OfSource(t, source, k.0))
    && (forall f :: f in t.fields && OfSource(t, source, t.fields[f].entity) ==>
          Lookup(index, (t.fields[f].entity, t.fields[f].name)) == Some(f))
  }

  function Lookup<K(==)>(index: map<K, Id>, key: K): Option<Id> {
    if key in index then Some(index[key]) else None
  }

  // ---- Upserts ----

  /** A hash match on an active row leaves the row alone; anything else writes all of it. */
  function UpsertEntity(t: Tables, source: int, m: Listed, existing: Option<Id>): (Tables, Id, Action)
    requires existing.Some? ==> existing.value in t.entities
  {
    var row := EntityRow(source, m.appLabel, m.model.modelLabel, m.model.attributes, true, ComputeEntityHash(m.model));
    if existing.None? then
      (t.(entities := t.entities[Id(t.nextEntity) := row], nextEntity := t.nextEntity + 1), Id(t.nextEntity), Created)
    else
      var was := t.entities[existing.value];
      if was.hash == row.hash && was.active then (t, existing.value, Unchanged)
      else (t.(entities := t.entities[existing.value := row.(source := was.source)]), existing.value, Updated)
  }

  function UpsertField(t: Tables, entity: Id, f: FieldMetadata, existing: Option<Id>): (Tables, Id, Action)
    requires existing.Some? ==> existing.value in t.fields
  {
    var row := FieldRow(entity, f.name, Normalize(f.attributes), true, ComputeFieldHash(f));
    if existing.None? then
      (t.(fields := t.fields[Id(t.nextField) := row], nextField := t.nextField + 1), Id(t.nextField), Created)
    else
      var was := t.fields[existing.value];
      if was.hash == row.hash && was.active then (t, existing.value, Unchanged)
      else
        var changed := row.(entity := was.entity, name := was.name);
        (t.(fields := t.fields[existing.value := changed]), existing.value, Updated)
  }

  // ---- Rows a snapshot no longer mentions ----

  predicate MissingEntity(row: EntityRow, source: int, seen: set<string>) {
    row.source == source && row.active && row.modelLabel !in seen
  }

  function MissingEntities(t: Tables, source: int, seen: set<string>): set<Id> {
    set e | e in t.entities && MissingEntity(t.entities[e], source, seen)
  }

  function DeactivateEntities(t: Tables, source: int, seen: set<string>): Tables {
    t.(entities := map e | e in t.entities ::
      if MissingEntity(t.entities[e], source, seen) then t.entities[e].(active := false) else t.entities[e])
  }

  predicate MissingField(row: FieldRow, scope: set<Id>, seen: set<(Id, string)>) {
    row.entity in scope && row.active && (row.entity, row.name) !in seen
  }

  function MissingFields(t: Tables, scope: set<Id>, seen: set<(Id, string)>): set<Id> {
    set f | f in t.fields && MissingField(t.fields[f], scope, seen)
  }

  function DeactivateFields(t: Tables, scope: set<Id>, seen: set<(Id, string)>): Tables {
    t.(fields := map f | f in t.fields ::
      if MissingField(t.fields[f], scope, seen) then t.fields[f].(active := false) else t.fields[f])
  }

  // ---- One pass over a snapshot ----

  /** The tables and the local variables of a running pass. */
  datatype Scan = Scan(
    tables: Tables, entityIds: map<string, Id>, fieldIds: map<(Id, string), Id>,
    seenLabels: set<string>, seenEntities: set<Id>, seenFields: set<(Id, string)>, counters: Counters)

  /** The lookup maps only hold ids of rows. */
  ghost predicate Resolves(s: Scan) {
    && (forall l :: l in s.entityIds ==> s.entityIds[l] in s.tables.entities)
    && (forall k :: k in s.fieldIds ==> s.fieldIds[k] in s.tables.fields)
  }

  function ScanEntity(s: Scan, source: int, m: Listed): (r: Scan)
    requires Resolves(s)
    ensures Resolves(r) && m.model.modelLabel in r.entityIds
  {
    var (t, id, action) := UpsertEntity(s.tables, source, m, Lookup(s.entityIds, m.model.modelLabel));
    Scan(t, s.entityIds[m.model.modelLabel := id], s.fieldIds,
         s.seenLabels + {m.model.modelLabel}, s.seenEntities + {id}, s.seenFields,
         CountEntity(s.counters, action))
  }

  function CountEntity(c: Counters, action: Action): Counters {
    c.(entitiesSeen := c.entitiesSeen + 1,
       entitiesCreated := c.entitiesCreated + if action == Created then 1 else 0,
       entitiesUpdated := c.entitiesUpdated + if action == Updated then 1 else 0)
  }

  function ScanField(s: Scan, entity: Id, f: FieldMetadata): (r: Scan)
    requires Resolves(s)
    ensures Resolves(r) && r.entityIds == s.entityIds
  {
    var (t, id, action) := UpsertField(s.tables, entity, f, Lookup(s.fieldIds, (entity, f.name)));
    s.(tables := t, fieldIds := s.fieldIds[(entity, f.name) := id],
       seenFields := s.seenFields + {(entity, f.name)}, counters := CountField(s.counters, action))
  }

  function CountField(c: Counters, action: Action): Counters {
    c.(fieldsSeen := c.fieldsSeen + 1,
       fieldsCreated := c.fieldsCreated + if action == Created then 1 else 0,
       fieldsUpdated := c.fieldsUpdated + if action == Updated then 1 else 0)
  }

  function ScanFields(s: Scan, entity: Id, fields: seq<FieldMetadata>): (r: Scan)
    requires Resolves(s)
    ensures Resolves(r) && r.entityIds == s.entityIds
  {
    if fields == [] then s
    else ScanField(ScanFields(s, entity, fields[..|fields| - 1]), entity, fields[|fields| - 1])
  }

  function ScanModel(s: Scan, source: int, m: Listed): (r: Scan)
    requires Resolves(s)
    ensures Resolves(r)
  {
    var s1 := ScanEntity(s, source, m);
    ScanFields(s1, s1.entityIds[m.model.modelLabel], m.model.fields)
  }

  function ScanModels(s: Scan, source: int, models: seq<Listed>): (r: Scan)
    requires Resolves(s)
    ensures Resolves(r)
  {
    if models == [] then s
    else ScanModel(ScanModels(s, source, models[..|models| - 1]), source, models[|models| - 1])
  }

  /** The two mark-missing steps that close a pass. */
  function Close(s: Scan, source: int): (Tables, Counters) {
    var t1 := DeactivateEntities(s.tables, source, s.seenLabels);
    var t2 := DeactivateFields(t1, s.seenEntities, s.seenFields);
    (t2, s.counters.(
      entitiesDeactivated := |MissingEntities(s.tables, source, s.seenLabels)|,
      fieldsDeactivated := |MissingFields(t1, s.seenEntities, s.seenFields)|))
  }

  function Opened(t: Tables, entityIds: map<string, Id>, fieldIds: map<(Id, string), Id>): Scan {
    Scan(t, entityIds, fieldIds, {}, {}, {}, Zero)
  }

  // ---- The lookup maps exist and are unique ----

  function IndexEntities(t: Tables, source: int): (index: map<string, Id>)
    requires UniqueEntities(t)
    ensures EntityIndex(t, source, index)
  {
    map e | e in t.entities && t.entities[e].source == source :: t.entities[e].modelLabel := e
  }

  function IndexFields(t: Tables, source: int): (index: map<(Id, string), Id>)
    requires UniqueFields(t)
    ensures FieldIndex(t, source, index)
  {
    map f | f in t.fields && OfSource(t, source, t.fields[f].entity) :: (t.fields[f].entity, t.fields[f].name) := f
  }

  function Open(t: Tables, source: int): (s: Scan)
    requires UniqueEntities(t) && UniqueFields(t)
    ensures Resolves(s)
  {
    Opened(t, IndexEntities(t, source), IndexFields(t, source))
  }

  /** What a whole pass makes of the tables, and what it counts. */
  function FullSync(t: Tables, source: int, models: seq<Listed>): (Tables, Counters)
    requires UniqueEntities(t) && UniqueFields(t)
  {
    Close(ScanModels(Open(t, source), source, models), source)
  }
}
