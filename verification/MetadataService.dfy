/** The repository and the synchroniser as they run: rows assigned in place, counters in loops. */
module MetadataService {
  import opened Prelude
  import opened Metadata
  import opened SnapshotHash
  import opened MetadataSync
  import opened MetadataRuns

  class MetadataDatabase {
    var sources: map<string, SourceRow>
    var nextSource: int
    var entities: map<Id, EntityRow>
    var fields: map<Id, FieldRow>
    var nextEntity: int
    var nextField: int
    var runs: seq<SyncRun>

    constructor ()
      ensures Contents() == Empty
    {
      sources, nextSource := map[], 1;
      entities, fields, nextEntity, nextField := map[], map[], 1, 1;
      runs := [];
    }

    function Rows(): Tables
      reads this
    {
      Tables(entities, fields, nextEntity, nextField)
    }

    function Contents(): Database
      reads this
    {
      Database(sources, nextSource, Rows(), runs)
    }

    method UpsertEntity(source: int, appLabel: string, model: ModelMetadata, hash: EntityHash, existing: Option<Id>)
      returns (entity: Id, action: Action)
      requires existing.Some? ==> existing.value in entities
      requires hash == ComputeEntityHash(model)
      modifies this`entities, this`nextEntity
      ensures (Rows(), entity, action)
        == MetadataSync.UpsertEntity(old(Rows()), source, Listed(appLabel, model), existing)
    {
      if existing.None? {
        entity := Id(nextEntity);
        nextEntity := nextEntity + 1;
        entities := entities[entity := EntityRow(source, appLabel, model.modelLabel, model.attributes, true, hash)];
        return entity, Created;
      }
      entity := existing.value;
      var row := entities[entity];
      if row.hash == hash && row.active {
        return entity, Unchanged;
      }
      row := row.(appLabel := appLabel, modelLabel := model.modelLabel, attributes := model.attributes);
      row := row.(active := true, hash := hash);
      entities := entities[entity := row];
      return entity, Updated;
    }

    method UpsertField(entity: Id, field: FieldMetadata, hash: FieldHash, attributes: FieldAttributes,
        existing: Option<Id>)
      returns (id: Id, action: Action)
      requires existing.Some? ==> existing.value in fields
      requires hash == ComputeFieldHash(field) && attributes == Normalize(field.attributes)
      modifies this`fields, this`nextField
      ensures (Rows(), id, action) == MetadataSync.UpsertField(old(Rows()), entity, field, existing)
    {
      if existing.None? {
        id := Id(nextField);
        nextField := nextField + 1;
        fields := fields[id := FieldRow(entity, field.name, attributes, true, hash)];
        return id, Created;
      }
      id := existing.value;
      var row := fields[id];
      if row.hash == hash && row.active {
        return id, Unchanged;
      }
      fields := fields[id := row.(attributes := attributes, active := true, hash := hash)];
      return id, Updated;
    }

    method MarkMissingEntitiesInactive(source: int, seen: set<string>) returns (count: int)
      modifies this`entities
      ensures Rows() == DeactivateEntities(old(Rows()), source, seen)
      ensures count == |MissingEntities(old(Rows()), source, seen)|
    {
      var missing := MissingEntities(Rows(), source, seen);
      EntitiesOff(Rows(), source, seen);
      hide MissingEntities;
      hide DeactivateEntities;
      var todo := missing;
      NoEntityOff(entities, missing);
      while todo != {}
        invariant todo <= missing && entities == EntitiesWithout(old(entities), missing - todo)
        decreases todo
      {
        var e := Pick(todo);
        NextEntityOff(old(entities), missing, todo, e);
        entities := entities[e := entities[e].(active := false)];
        todo := todo - {e};
      }
      assert missing - todo == missing;
      count := |missing|;
    }

    method MarkMissingFieldsInactive(scope: set<Id>, seen: set<(Id, string)>) returns (count: int)
      modifies this`fields
      ensures Rows() == DeactivateFields(old(Rows()), scope, seen)
      ensures count == |MissingFields(old(Rows()), scope, seen)|
    {
      count := 0;
      if scope == {} {
        NothingInScope(Rows(), seen);
        return;
      }
      var candidates := set f | f in fields && fields[f].entity in scope && fields[f].active;
      ghost var start := Rows();
      ghost var missing := MissingFields(start, scope, seen);
      MissingCandidates(start, scope, seen, candidates);
      FieldsOff(start, scope, seen);
      NoFieldOff(fields, missing, candidates);
      hide MissingFields;
      hide DeactivateFields;
      hide FieldsWithout;
      var todo := candidates;
      while todo != {}
        invariant todo <= candidates && count == |missing - todo|
        invariant fields == FieldsWithout(start.fields, missing - todo)
        decreases todo
      {
        var f := Pick(todo);
        assert f in candidates;
        NextFieldOff(start.fields, missing, todo, f, seen);
        todo := todo - {f};
        if (fields[f].entity, fields[f].name) in seen {
          continue;
        }
        fields := fields[f := fields[f].(active := false)];
        count := count + 1;
      }
      assert missing - todo == missing;
      assert Rows() == start.(fields := FieldsWithout(start.fields, missing));
    }

    /** One field of a model; `before` is the state of the pass when it starts. */
    method SyncField(entity: Id, field: FieldMetadata, ghost before: Scan,
                     fieldIds: map<(Id, string), Id>, keys: set<(Id, string)>, counts: Counters)
      returns (existingFields: map<(Id, string), Id>, seenFields: set<(Id, string)>, counters: Counters)
      requires Resolves(before)
        && before == before.(tables := Rows(), fieldIds := fieldIds, seenFields := keys, counters := counts)
      modifies this`fields, this`nextField
      ensures before.(tables := Rows(), fieldIds := existingFields, seenFields := seenFields, counters := counters)
        == ScanField(before, entity, field)
    {
      hide ComputeFieldHash;
      hide Normalize;
      hide MetadataSync.UpsertField;
      var key := (entity, field.name);
      counters := counts.(fieldsSeen := counts.fieldsSeen + 1);
      var id, action :=
        UpsertField(entity, field, ComputeFieldHash(field), Normalize(field.attributes), Lookup(fieldIds, key));
      existingFields := fieldIds[key := id];
      seenFields := keys + {key};
      if action == Created {
        counters := counters.(fieldsCreated := counters.fieldsCreated + 1);
      } else if action == Updated {
        counters := counters.(fieldsUpdated := counters.fieldsUpdated + 1);
      }
    }

    /** The fields of a model, in order; `before` is the state when they start. */
    method SyncFields(entity: Id, fieldList: seq<FieldMetadata>, ghost before: Scan,
                      fieldIds: map<(Id, string), Id>, keys: set<(Id, string)>, counts: Counters)
      returns (existingFields: map<(Id, string), Id>, seenFields: set<(Id, string)>, counters: Counters)
      requires Resolves(before)
        && before == before.(tables := Rows(), fieldIds := fieldIds, seenFields := keys, counters := counts)
      modifies this`fields, this`nextField
      ensures before.(tables := Rows(), fieldIds := existingFields, seenFields := seenFields, counters := counters)
        == ScanFields(before, entity, fieldList)
    {
      NoFields(before, entity, fieldList);
      hide ScanFields;
      hide ScanField;
      existingFields, seenFields, counters := fieldIds, keys, counts;
      for k := 0 to |fieldList|
        invariant before.(tables := Rows(), fieldIds := existingFields, seenFields := seenFields, counters := counters)
          == ScanFields(before, entity, fieldList[..k])
      {
        FieldNext(before, entity, fieldList, k);
        ghost var s := ScanFields(before, entity, fieldList[..k]);
        existingFields, seenFields, counters :=
          SyncField(entity, fieldList[k], s, existingFields, seenFields, counters);
      }
      assert fieldList[..|fieldList|] == fieldList;
    }

    /** One model of the pass: its entity, then its fields, with the locals of the pass threaded through. */
    method SyncModel(source: int, listed: Listed, entityIds: map<string, Id>, fieldIds: map<(Id, string), Id>,
                     labels: set<string>, scope: set<Id>, keys: set<(Id, string)>, counts: Counters, stop: Option<nat>)
      returns (existingEntities: map<string, Id>, existingFields: map<(Id, string), Id>,
               seenLabels: set<string>, seenEntities: set<Id>, seenFields: set<(Id, string)>, counters: Counters)
      requires Resolves(Scan(Rows(), entityIds, fieldIds, labels, scope, keys, counts))
      modifies this`entities, this`nextEntity, this`fields, this`nextField
      ensures Scan(Rows(), existingEntities, existingFields, seenLabels, seenEntities, seenFields, counters)
        == ScanModel(Scan(old(Rows()), entityIds, fieldIds, labels, scope, keys, counts), source, CutTo(listed, stop))
    {
      hide ComputeEntityHash;
      hide MetadataSync.UpsertEntity;
      hide ScanFields;
      ghost var before := Scan(Rows(), entityIds, fieldIds, labels, scope, keys, counts);
      var model := listed.model;
      counters := counts.(entitiesSeen := counts.entitiesSeen + 1);
      var entity, action :=
        UpsertEntity(source, listed.appLabel, model, ComputeEntityHash(model), Lookup(entityIds, model.modelLabel));
      existingEntities := entityIds[model.modelLabel := entity];
      seenLabels := labels + {model.modelLabel};
      seenEntities := scope + {entity};
      if action == Created {
        counters := counters.(entitiesCreated := counters.entitiesCreated + 1);
      } else if action == Updated {
        counters := counters.(entitiesUpdated := counters.entitiesUpdated + 1);
      }
      ghost var upserted := ScanEntity(before, source, listed);
      assert upserted == Scan(Rows(), existingEntities, fieldIds, seenLabels, seenEntities, keys, counters);
      existingFields, seenFields, counters :=
        SyncFields(entity, UpTo(model.fields, stop), upserted, fieldIds, keys, counters);
      EntityIgnoresFields(before, source, listed, stop);
    }

    /** The pass over a snapshot and the marking of missing rows; `fault` raises an exception on the way. */
    method RunFullSync(source: int, apps: seq<AppMetadata>, fault: Option<Fault>)
      returns (result: Result<Counters, SyncError>)
      requires UniqueEntities(Rows()) && UniqueFields(Rows())
      modifies this`entities, this`nextEntity, this`fields, this`nextField
      ensures fault.None? ==> result.Ok? && (Rows(), result.value) == FullSync(old(Rows()), source, Models(apps))
      ensures fault.Some? ==>
        result == Err(SyncError) && Rows() == Interrupted(old(Rows()), source, Models(apps), fault.value)
    {
      hide ScanModel;
      hide ScanModels;
      hide MissingEntities;
      hide MissingFields;
      hide DeactivateEntities;
      hide DeactivateFields;
      hide Interrupted;
      hide CutTo;
      hide UniqueEntities;
      hide UniqueFields;
      var counters := Zero;
      NothingScanned(Open(Rows(), source), source);
      var existingEntities := IndexEntities(Rows(), source);
      var existingFields := IndexFields(Rows(), source);
      var seenLabels, seenEntities, seenFields := {}, {}, {};
      var n := 0;
      ghost var tables, start, models := Rows(), Open(Rows(), source), Models(apps);
      for i := 0 to |apps|
        invariant n == |Models(apps[..i])| && (InPassAt(fault) ==> n <= fault.value.models)
        invariant Scan(Rows(), existingEntities, existingFields, seenLabels, seenEntities, seenFields, counters)
          == ScanModels(start, source, Models(apps[..i]))
      {
        ghost var before := Models(apps[..i]);
        NextApp(apps, i);
        for j := 0 to |apps[i].models|
          invariant n == |before| + j && (InPassAt(fault) ==> n <= fault.value.models)
          invariant Scan(Rows(), existingEntities, existingFields, seenLabels, seenEntities, seenFields, counters)
            == ScanModels(start, source, before + ListedIn(apps[i])[..j])
        {
          NextListed(apps, i, j);
          var raises := InPassAt(fault) && fault.value.models == n;
          var stop := if raises then fault.value.fields else None;
          if raises {
            StopsAt(tables, source, models, fault.value);
            if stop.None? {
              return Err(SyncError);
            }
          }
          var listed := Listed(apps[i].appLabel, apps[i].models[j]);
          NotCut(listed);
          ScanNext(start, source, before + ListedIn(apps[i])[..j], CutTo(listed, stop));
          existingEntities, existingFields, seenLabels, seenEntities, seenFields, counters :=
            SyncModel(source, listed,
                      existingEntities, existingFields, seenLabels, seenEntities, seenFields, counters, stop);
          if raises {
            return Err(SyncError);
          }
          n := n + 1;
        }
      }
      assert apps[..|apps|] == apps;
      if fault.Some? {
        StopsAfter(tables, source, models, fault.value);
      }
      if fault.Some? && (fault.value.InPass? || fault.value.marks == 0) {
        return Err(SyncError);
      }
      var entitiesDeactivated := MarkMissingEntitiesInactive(source, seenLabels);
      counters := counters.(entitiesDeactivated := entitiesDeactivated);
      if fault.Some? && fault.value.marks == 1 {
        return Err(SyncError);
      }
      var fieldsDeactivated := MarkMissingFieldsInactive(seenEntities, seenFields);
      counters := counters.(fieldsDeactivated := fieldsDeactivated);
      result := if fault.Some? then Err(SyncError) else Ok(counters);
    }

    /** sync_full_snapshot: everything inside the savepoint is undone when it raises. */
    method SyncFullSnapshot(p: Payload, fault: Option<Fault>, now: int) returns (result: Result<Counters, SyncError>)
      requires UniqueEntities(Rows()) && UniqueFields(Rows())
      modifies this
      ensures (Contents(), result) == Synchronize(old(Contents()), p, fault, now)
    {
      hide FullSync;
      hide Canonical;
      hide ScanModels;
      hide Interrupted;
      var hash := ComputeSnapshotHash(p);
      if p.sourceKey !in sources {
        sources := sources[p.sourceKey := SourceRow(nextSource, p.info, None)];
        nextSource := nextSource + 1;
      } else {
        sources := sources[p.sourceKey := sources[p.sourceKey].(info := p.info)];
      }
      var source := sources[p.sourceKey];
      runs := runs + [SyncRun(source.id, hash, 0, 0, InProgress)];
      var run := |runs| - 1;
      var savedEntities, savedFields := entities, fields;
      ghost var d := WithSource(old(Contents()), p);
      result := RunFullSync(source.id, p.apps, fault);
      if result.Ok? {
        sources := sources[p.sourceKey := source.(info := p.info, lastSyncAt := Some(now))];
        runs := runs[run :=
          runs[run].(models := result.value.entitiesSeen, fields := result.value.fieldsSeen, status := Success)];
        assert runs == d.runs + [SyncRun(source.id, hash, result.value.entitiesSeen, result.value.fieldsSeen, Success)];
      } else {
        entities, fields := savedEntities, savedFields;
        runs := runs[run := runs[run].(status := Failed)];
        assert runs == d.runs + [SyncRun(source.id, hash, 0, 0, Failed)];
      }
    }
  }

  // ---- Rows marked one by one ----

  function EntitiesWithout(rows: map<Id, EntityRow>, off: set<Id>): map<Id, EntityRow> {
    map e | e in rows :: if e in off then rows[e].(active := false) else rows[e]
  }

  function FieldsWithout(rows: map<Id, FieldRow>, off: set<Id>): map<Id, FieldRow> {
    map f | f in rows :: if f in off then rows[f].(active := false) else rows[f]
  }

  lemma EntitiesOff(t: Tables, source: int, seen: set<string>)
    ensures var missing := MissingEntities(t, source, seen);
      && missing <= t.entities.Keys
      && DeactivateEntities(t, source, seen) == t.(entities := EntitiesWithout(t.entities, missing))
  {
  }

  lemma NoEntityOff(rows: map<Id, EntityRow>, missing: set<Id>)
    ensures EntitiesWithout(rows, missing - missing) == rows
  {
  }

  lemma NextEntityOff(rows: map<Id, EntityRow>, missing: set<Id>, todo: set<Id>, e: Id)
    requires e in todo && todo <= missing <= rows.Keys
    ensures var now := EntitiesWithout(rows, missing - todo);
      e in now && EntitiesWithout(rows, missing - (todo - {e})) == now[e := now[e].(active := false)]
  {
  }

  lemma FieldsOff(t: Tables, scope: set<Id>, seen: set<(Id, string)>)
    ensures var missing := MissingFields(t, scope, seen);
      DeactivateFields(t, scope, seen) == t.(fields := FieldsWithout(t.fields, missing))
  {
  }

  lemma NoFieldOff(rows: map<Id, FieldRow>, missing: set<Id>, candidates: set<Id>)
    requires missing <= candidates
    ensures FieldsWithout(rows, missing - candidates) == rows && |missing - candidates| == 0
  {
    assert missing - candidates == {};
  }

  /** The candidates are the active fields in scope; those not seen are missing. */
  lemma MissingCandidates(t: Tables, scope: set<Id>, seen: set<(Id, string)>, candidates: set<Id>)
    requires candidates == set f | f in t.fields && t.fields[f].entity in scope && t.fields[f].active
    ensures MissingFields(t, scope, seen) <= candidates <= t.fields.Keys
    ensures forall f :: f in candidates ==>
      (f in MissingFields(t, scope, seen) <==> (t.fields[f].entity, t.fields[f].name) !in seen)
  {
  }

  lemma NextFieldOff(rows: map<Id, FieldRow>, missing: set<Id>, todo: set<Id>, f: Id, seen: set<(Id, string)>)
    requires f in todo && f in rows && (f in missing <==> (rows[f].entity, rows[f].name) !in seen)
    ensures var now, after := FieldsWithout(rows, missing - todo), missing - (todo - {f});
      && f in now
      && if (now[f].entity, now[f].name) in seen then after == missing - todo
         else |after| == |missing - todo| + 1 && FieldsWithout(rows, after) == now[f := now[f].(active := false)]
  {
    var done, after := missing - todo, missing - (todo - {f});
    if f in missing {
      assert after == done + {f};
    } else {
      assert after == done;
    }
  }

  lemma NothingInScope(t: Tables, seen: set<(Id, string)>)
    ensures MissingFields(t, {}, seen) == {} && DeactivateFields(t, {}, seen) == t
  {
  }

  predicate InPassAt(fault: Option<Fault>) {
    fault.Some? && fault.value.InPass?
  }

  /** The entity of a model is worked through without looking at its fields. */
  lemma EntityIgnoresFields(s: Scan, source: int, m: Listed, stop: Option<nat>)
    requires Resolves(s)
    ensures ScanEntity(s, source, CutTo(m, stop)) == ScanEntity(s, source, m)
    ensures CutTo(m, stop).model.modelLabel == m.model.modelLabel
      && CutTo(m, stop).model.fields == UpTo(m.model.fields, stop)
  {
  }

  lemma NoFields(s: Scan, entity: Id, fields: seq<FieldMetadata>)
    requires Resolves(s)
    ensures ScanFields(s, entity, fields[..0]) == s
  {
  }

  lemma FieldNext(s: Scan, entity: Id, fields: seq<FieldMetadata>, k: nat)
    requires Resolves(s) && k < |fields|
    ensures Resolves(ScanFields(s, entity, fields[..k]))
    ensures ScanFields(s, entity, fields[..k + 1]) == ScanField(ScanFields(s, entity, fields[..k]), entity, fields[k])
  {
    assert fields[..k + 1][..k] == fields[..k];
  }

  // ---- Where an exception stops the pass ----

  /** The exception falls in the pass: before the n-th model, or after its entity and some of its fields. */
  lemma StopsAt(t: Tables, source: int, models: seq<Listed>, fault: Fault)
    requires UniqueEntities(t) && UniqueFields(t) && fault.InPass? && fault.models < |models|
    ensures var done, next := models[..fault.models], models[fault.models];
      var reached := if fault.fields.None? then done else done + [CutTo(next, fault.fields)];
      Interrupted(t, source, models, fault) == ScanModels(Open(t, source), source, reached).tables
  {
  }

  /** The exception falls after the pass. */
  lemma StopsAfter(t: Tables, source: int, models: seq<Listed>, fault: Fault)
    requires UniqueEntities(t) && UniqueFields(t) && (fault.InPass? ==> fault.models >= |models|)
    ensures var s := ScanModels(Open(t, source), source, models);
      Interrupted(t, source, models, fault) ==
        if fault.InPass? || fault.marks == 0 then s.tables
        else if fault.marks == 1 then DeactivateEntities(s.tables, source, s.seenLabels)
        else Close(s, source).0
  {
    hide Close;
    hide DeactivateEntities;
  }

  lemma NothingScanned(s: Scan, source: int)
    requires Resolves(s)
    ensures ScanModels(s, source, []) == s
  {
  }

  lemma ScanNext(s: Scan, source: int, done: seq<Listed>, next: Listed)
    requires Resolves(s)
    ensures Resolves(ScanModels(s, source, done))
    ensures ScanModels(s, source, done + [next]) == ScanModel(ScanModels(s, source, done), source, next)
  {
    assert (done + [next])[..|done|] == done;
  }

  lemma NotCut(m: Listed)
    ensures CutTo(m, None) == m
  {
  }

  lemma NextApp(apps: seq<AppMetadata>, i: nat)
    requires i < |apps|
    ensures Models(apps[..i]) + ListedIn(apps[i])[..0] == Models(apps[..i])
    ensures Models(apps[..i + 1]) == Models(apps[..i]) + ListedIn(apps[i])[..|apps[i].models|]
  {
    assert apps[..i + 1][..i] == apps[..i];
    assert ListedIn(apps[i])[..|apps[i].models|] == ListedIn(apps[i]);
  }

  /** Where the j-th model of the i-th app stands in the order of the whole payload. */
  lemma NextListed(apps: seq<AppMetadata>, i: nat, j: nat)
    requires i < |apps| && j < |apps[i].models|
    ensures var n := |Models(apps[..i])| + j;
      var models := Models(apps);
      var done := Models(apps[..i]) + ListedIn(apps[i])[..j];
      && n < |models| && models[..n] == done && models[n] == Listed(apps[i].appLabel, apps[i].models[j])
      && done + [Listed(apps[i].appLabel, apps[i].models[j])] == Models(apps[..i]) + ListedIn(apps[i])[..j + 1]
  {
    ModelsPrefix(apps, i + 1);
    assert apps[..i + 1][..i] == apps[..i];
    assert Models(apps[..i + 1]) == Models(apps[..i]) + ListedIn(apps[i]);
  }

  lemma {:induction false} ModelsPrefix(apps: seq<AppMetadata>, i: nat)
    requires i <= |apps|
    ensures Models(apps[..i]) <= Models(apps)
  {
    if i < |apps| {
      ModelsPrefix(apps[..|apps| - 1], i);
      assert apps[..|apps| - 1][..i] == apps[..i];
    } else {
      assert apps[..i] == apps;
    }
  }
}
