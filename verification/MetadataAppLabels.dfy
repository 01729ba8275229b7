/**
 The app label of an entity. The entity hash covers the prefix of the model label but not the
 label of the app that lists the model, so a hash match keeps the app label of an earlier snapshot.
 */
module MetadataAppLabels {
  import opened Metadata
  import opened PayloadViews
  import opened MetadataSync
  import opened MetadataSyncTheory
  import opened MetadataView
  import opened MetadataCounters
  import opened MetadataChanges
  import opened MetadataRepeat

  /** The app label each active entity shows. */
  ghost function AppLabels(t: Tables, source: int): map<string, string>
    requires Valid(t)
  {
    map e | e in t.entities && t.entities[e].source == source && t.entities[e].active ::
      t.entities[e].modelLabel := t.entities[e].appLabel
  }

  lemma AppLabelOfRow(t: Tables, source: int, l: string, e: Id)
    requires Valid(t) && ShowsEntity(t, source, l, e)
    ensures l in AppLabels(t, source) && AppLabels(t, source)[l] == t.entities[e].appLabel
  {
  }

  /** The app label a pass leaves on a model: the old one if its row was current, the listed one otherwise. */
  ghost predicate LeavesAppLabel(t: Tables, source: int, m: Listed, appLabel: string)
    requires Valid(t)
  {
    if CurrentEntity(t, source, m.model.modelLabel, m.model.attributes)
    then m.model.modelLabel in AppLabels(t, source) && appLabel == AppLabels(t, source)[m.model.modelLabel]
    else appLabel == m.appLabel
  }

  lemma EntityAppLabel(start: Tables, source: int, s: Scan, v: View, m: Listed)
    requires Valid(start) && Tracks(start, source, s, v) && Resolves(s) && m.model.modelLabel !in v
    ensures var r := ScanEntity(s, source, m);
      LeavesAppLabel(start, source, m, r.tables.entities[r.entityIds[m.model.modelLabel]].appLabel)
  {
    hide Tracks;
    hide AppLabels;
    hide KnownLabels;
    hide FieldHashed;
    var l := m.model.modelLabel;
    KnownEntity(start, source, s, v, l);
    TracksIndexed(start, source, s, v);
    if l in s.entityIds {
      var e := s.entityIds[l];
      assert EntityAt(s.tables, source, l, e);
      assert EntityHashed(start.entities[e]);
      if start.entities[e].active {
        AppLabelOfRow(start, source, l, e);
      }
      if CurrentEntity(start, source, l, m.model.attributes) {
        var d :| EntityAt(start, source, l, d) && EntityShows(start, d, m.model.attributes);
        assert SameEntityKey(start.entities[d], start.entities[e]);
      }
      assert EntityAt(start, source, l, e);
    } else if CurrentEntity(start, source, l, m.model.attributes) {
      var d :| EntityAt(start, source, l, d) && EntityShows(start, d, m.model.attributes);
      assert l !in KnownLabels(start, source);
      KnownRow(start, source, l, d);
      assert false;
    }
  }

  lemma KnownRow(t: Tables, source: int, l: string, e: Id)
    requires EntityAt(t, source, l, e)
    ensures l in KnownLabels(t, source)
  {
  }

  lemma {:induction false} FieldsKeepEntities(s: Scan, entity: Id, fields: seq<FieldMetadata>)
    requires Resolves(s)
    ensures ScanFields(s, entity, fields).tables.entities == s.tables.entities
  {
    if fields != [] {
      FieldsKeepEntities(s, entity, fields[..|fields| - 1]);
    }
  }

  lemma OtherEntityKept(start: Tables, source: int, s: Scan, v: View, m: Listed, l: string)
    requires Tracks(start, source, s, v) && Resolves(s) && l in s.entityIds && l != m.model.modelLabel
    ensures var r := ScanEntity(s, source, m);
      l in r.entityIds && r.entityIds[l] == s.entityIds[l]
        && r.tables.entities[r.entityIds[l]] == s.tables.entities[s.entityIds[l]]
  {
    hide Tracks;
    hide Valid;
    hide EntityIndex;
    hide FieldIndex;
    TracksIndexed(start, source, s, v);
    var k := m.model.modelLabel;
    var (u, id, action) := UpsertEntity(s.tables, source, m, Lookup(s.entityIds, k));
    UpsertEntityEffect(s.tables, source, m, s.entityIds);
    OtherEntity(s.tables, u, source, k, s.entityIds, id, m.model.attributes, l);
  }

  /** After the last model the entity rows are those its entity left. */
  lemma LastModelEntities(s: Scan, source: int, models: seq<Listed>)
    requires Resolves(s) && models != []
    ensures var n := |models| - 1;
      var r := ScanEntity(ScanModels(s, source, models[..n]), source, models[n]);
      var all := ScanModels(s, source, models);
      all.tables.entities == r.tables.entities && all.entityIds == r.entityIds
  {
    hide ScanEntity;
    var n := |models| - 1;
    var r := ScanEntity(ScanModels(s, source, models[..n]), source, models[n]);
    FieldsKeepEntities(r, r.entityIds[models[n].model.modelLabel], models[n].model.fields);
  }

  lemma {:induction false} ScannedAppLabel(t: Tables, source: int, models: seq<Listed>, i: nat)
    requires Valid(t) && Unambiguous(models) && i < |models|
    ensures var s := ScanModels(Open(t, source), source, models); var l := models[i].model.modelLabel;
      l in s.entityIds && LeavesAppLabel(t, source, models[i], s.tables.entities[s.entityIds[l]].appLabel)
  {
    hide Tracks;
    hide ScanEntity;
    hide ScanModels;
    hide LeavesAppLabel;
    hide Valid;
    hide PayloadView;
    hide UniqueNames;
    ValidKeys(t);
    var n := |models| - 1;
    var m, front := models[n], models[..n];
    UnambiguousFront(models);
    TracksOpen(t, source);
    TracksModels(t, source, Open(t, source), front);
    LastModelEntities(Open(t, source), source, models);
    var s, v := ScanModels(Open(t, source), source, front), PayloadView(front);
    if i < n {
      ScannedAppLabel(t, source, front, i);
      assert front[i] == models[i];
      assert models[i].model.modelLabel != m.model.modelLabel;
      OtherEntityKept(t, source, s, v, m, models[i].model.modelLabel);
    } else {
      EntityAppLabel(t, source, s, v, m);
    }
  }

  /**
   After a synchronisation a model shows the app label of the payload, unless the source already showed the
   model with the same attributes; then it keeps the app label it showed.
   */
  lemma AppLabelAfterSync(t: Tables, source: int, models: seq<Listed>, i: nat)
    requires Valid(t) && Unambiguous(models) && i < |models|
    ensures var u := FullSync(t, source, models).0; var m := models[i]; var l := m.model.modelLabel;
      && Valid(u) && l in AppLabels(u, source)
      && AppLabels(u, source)[l] ==
          if l in Visible(t, source) && Visible(t, source)[l].attributes == m.model.attributes
            && l in AppLabels(t, source)
          then AppLabels(t, source)[l] else m.appLabel
  {
    hide Visible;
    hide AppLabels;
    hide Tracks;
    hide Close;
    hide Valid;
    ValidKeys(t);
    var u, l := FullSync(t, source, models).0, models[i].model.modelLabel;
    TracksOpen(t, source);
    TracksModels(t, source, Open(t, source), models);
    var s, v := ScanModels(Open(t, source), source, models), PayloadView(models);
    ScannedAppLabel(t, source, models, i);
    ShownEntity(t, source, l, models[i].model.attributes);
    ViewLabels(models, l);
    ClosedRow(t, source, s, v, l);
    AppLabelOfRow(u, source, l, s.entityIds[l]);
  }

  lemma ClosedRow(start: Tables, source: int, s: Scan, v: View, l: string)
    requires Tracks(start, source, s, v) && l in v && l in s.entityIds
    ensures var t := Close(s, source).0;
      && Valid(t) && ShowsEntity(t, source, l, s.entityIds[l])
      && t.entities[s.entityIds[l]].appLabel == s.tables.entities[s.entityIds[l]].appLabel
  {
    hide Close;
    hide FieldsTracked;
    hide FieldIndex;
    hide EntitiesKept;
    hide FieldsKept;
    CloseValid(s, source);
    CloseEntity(s, source, s.entityIds[l]);
    assert EntityTracked(s, l, v[l].attributes);
    assert EntityAt(s.tables, source, l, s.entityIds[l]);
  }

  /** A model that moves to another app with the same attributes keeps showing the first app. */
  lemma MovedModelIsStale(t: Tables, source: int, m: ModelMetadata, first: string, second: string)
    requires Valid(t) && m.modelLabel !in Visible(t, source) && UniqueNames(m.fields) && first != second
    ensures var u := FullSync(t, source, [Listed(first, m)]).0;
      && Valid(u)
      && var w := FullSync(u, source, [Listed(second, m)]).0;
      && Valid(w) && m.modelLabel in AppLabels(w, source) && AppLabels(w, source)[m.modelLabel] == first
  {
    hide Visible;
    hide AppLabels;
    hide FullSync;
    hide Valid;
    ValidKeys(t);
    var l, before, after := m.modelLabel, [Listed(first, m)], [Listed(second, m)];
    assert Unambiguous(before) && Unambiguous(after);
    AppLabelAfterSync(t, source, before, 0);
    FullSyncShowsPayload(t, source, before);
    ViewContents(before, 0);
    var u := FullSync(t, source, before).0;
    ValidKeys(u);
    AppLabelAfterSync(u, source, after, 0);
  }

  // ---- When the model label determines the app label ----

  ghost predicate LabelledBy(t: Tables, source: int, appOf: string -> string) {
    forall e :: e in t.entities && t.entities[e].source == source && t.entities[e].active ==>
      t.entities[e].appLabel == appOf(t.entities[e].modelLabel)
  }

  lemma {:induction false} ScanKeepsLabels(s: Scan, source: int, models: seq<Listed>, appOf: string -> string)
    requires Resolves(s) && LabelledBy(s.tables, source, appOf)
    requires forall i :: 0 <= i < |models| ==> models[i].appLabel == appOf(models[i].model.modelLabel)
    ensures LabelledBy(ScanModels(s, source, models).tables, source, appOf)
  {
    if models != [] {
      var n := |models| - 1;
      var front, m := models[..n], models[n];
      forall i | 0 <= i < |front| ensures front[i].appLabel == appOf(front[i].model.modelLabel) {
        assert front[i] == models[i];
      }
      ScanKeepsLabels(s, source, front, appOf);
      var r := ScanEntity(ScanModels(s, source, front), source, m);
      assert LabelledBy(r.tables, source, appOf);
      FieldsKeepEntities(r, r.entityIds[m.model.modelLabel], m.model.fields);
    }
  }

  /** If every app label is a function of the model label, the hash shortcut loses nothing. */
  lemma SyncKeepsLabels(t: Tables, source: int, models: seq<Listed>, appOf: string -> string)
    requires Valid(t) && LabelledBy(t, source, appOf)
    requires forall i :: 0 <= i < |models| ==> models[i].appLabel == appOf(models[i].model.modelLabel)
    ensures LabelledBy(FullSync(t, source, models).0, source, appOf)
  {
    hide Close;
    ValidKeys(t);
    var s := ScanModels(Open(t, source), source, models);
    ScanKeepsLabels(Open(t, source), source, models, appOf);
    forall e | e in Close(s, source).0.entities ensures e in s.tables.entities
      && Close(s, source).0.entities[e] == ClosedEntity(s, source, s.tables.entities[e])
    {
      CloseEntity(s, source, e);
    }
  }
}
