/** The outcome of one synchronisation: retired rows, all counters, and what a second one does. */
module MetadataOutcome {
  import opened Prelude
  import opened Metadata
  import opened PayloadViews
  import opened MetadataSync
  import opened MetadataSyncTheory
  import opened MetadataView
  import opened MetadataCounters
  import opened MetadataChanges

  // ---- Retired rows ----

  /** Active fields of models the payload names, without the fields it gives them. */
  function RetiredCells(t: Tables, source: int, v: View): set<(string, string)> {
    set c | c in ActiveCells(t, source) && c.0 in v && c !in Cells(v)
  }

  lemma RetiredEntity(start: Tables, source: int, s: Scan, v: View, e: Id)
    requires Valid(start) && Tracks(start, source, s, v)
    requires e in MissingEntities(s.tables, source, s.seenLabels)
    ensures s.tables.entities[e].modelLabel in Visible(start, source).Keys - v.Keys
  {
    hide Visible;
    hide Indexed;
    hide FieldsTracked;
    hide FieldsKept;
    hide Valid;
    ValidKeys(start);
    assert s.tables.entities[e].modelLabel !in v;
    assert e in start.entities;
    ViewOfRow(start, source, start.entities[e].modelLabel, e);
  }

  lemma RetiredLabel(start: Tables, source: int, s: Scan, v: View, l: string) returns (e: Id)
    requires Valid(start) && Tracks(start, source, s, v)
    requires l in Visible(start, source).Keys - v.Keys
    ensures e in MissingEntities(s.tables, source, s.seenLabels) && s.tables.entities[e].modelLabel == l
  {
    hide Visible;
    hide Indexed;
    hide FieldsTracked;
    hide FieldsKept;
    hide Valid;
    ValidKeys(start);
    e := RowOfView(start, source, l);
  }

  /** The active models missing from the payload. */
  lemma EntitiesRetired(start: Tables, source: int, s: Scan, v: View)
    requires Valid(start) && Tracks(start, source, s, v)
    ensures |MissingEntities(s.tables, source, s.seenLabels)| == |Visible(start, source).Keys - v.Keys|
  {
    hide Visible;
    hide Tracks;
    TracksIndexed(start, source, s, v);
    var missing, labels := MissingEntities(s.tables, source, s.seenLabels), Visible(start, source).Keys - v.Keys;
    forall e | e in missing ensures s.tables.entities[e].modelLabel in labels {
      RetiredEntity(start, source, s, v, e);
    }
    forall d, e | d in missing && e in missing && s.tables.entities[d].modelLabel == s.tables.entities[e].modelLabel
      ensures d == e
    {
      assert SameEntityKey(s.tables.entities[d], s.tables.entities[e]);
    }
    forall l | l in labels ensures exists e :: e in missing && s.tables.entities[e].modelLabel == l {
      var e := RetiredLabel(start, source, s, v, l);
    }
    SameSize(missing, labels, e requires e in s.tables.entities => s.tables.entities[e].modelLabel);
  }

  lemma RetiredField(start: Tables, source: int, s: Scan, v: View, f: Id)
    requires Valid(start) && Tracks(start, source, s, v)
    requires f in MissingFields(s.tables, s.seenEntities, s.seenFields)
    ensures CellOf(s.tables, f) in RetiredCells(start, source, v) && FieldOfSource(s.tables, source, f)
  {
    hide UniqueEntities;
    hide UniqueFields;
    hide FieldIndex;
    hide FieldHashed;
    hide EntityHashed;
    hide FieldShows;
    hide EntityTracked;
    hide EntityAt;
    var key := (s.tables.fields[f].entity, s.tables.fields[f].name);
    assert EntityNamed(s.tables, source, v, key.0);
    var l := s.tables.entities[key.0].modelLabel;
    assert Lookup(s.entityIds, l) == Some(key.0);
    assert SameFieldKey(start.fields[f], s.tables.fields[f]);
    assert SameEntityKey(start.entities[key.0], s.tables.entities[key.0]);
    assert (l, key.1) in Cells(v) ==> FieldTracked(s, l, key.1, v[l].fields[key.1]);
    assert CellOf(start, f) == (l, key.1);
  }

  /** An entity of the source that the payload names is the one the pass has seen under its label. */
  lemma ListedRow(start: Tables, source: int, s: Scan, v: View, e: Id)
    requires Tracks(start, source, s, v) && OfSource(start, source, e) && start.entities[e].modelLabel in v
    ensures var l := start.entities[e].modelLabel;
      && e in s.tables.entities && s.tables.entities[e].modelLabel == l
      && Lookup(s.entityIds, l) == Some(e) && e in s.seenEntities
  {
    hide Valid;
    hide FieldsTracked;
    hide FieldsKept;
    hide FieldIndex;
    assert SameEntityKey(start.entities[e], s.tables.entities[e]);
    assert OfSource(s.tables, source, e);
    assert EntityTracked(s, start.entities[e].modelLabel, v[start.entities[e].modelLabel].attributes);
  }

  /** A field of the source under a named entity that the payload does not name keeps its row, unseen. */
  lemma UnlistedField(start: Tables, source: int, s: Scan, v: View, f: Id)
    requires FieldsTracked(s, v) && FieldsKept(start, s) && FieldOfSource(start, source, f)
    requires CellOf(start, f).0 in v && CellOf(start, f).1 !in v[CellOf(start, f).0].fields
    requires Lookup(s.entityIds, CellOf(start, f).0) == Some(start.fields[f].entity)
    ensures f in s.tables.fields && s.tables.fields[f] == start.fields[f]
    ensures (start.fields[f].entity, start.fields[f].name) !in s.seenFields
  {
    hide FieldTracked;
    assert SameFieldKey(start.fields[f], s.tables.fields[f]);
  }

  lemma RetiredRow(start: Tables, source: int, s: Scan, v: View, f: Id)
    requires Tracks(start, source, s, v) && FieldOfSource(start, source, f) && start.fields[f].active
    requires CellOf(start, f).0 in v && CellOf(start, f).1 !in v[CellOf(start, f).0].fields
    ensures f in MissingFields(s.tables, s.seenEntities, s.seenFields) && CellOf(s.tables, f) == CellOf(start, f)
  {
    hide Valid;
    hide Indexed;
    hide EntitiesTracked;
    hide EntitiesKept;
    hide FieldsTracked;
    hide FieldsKept;
    ListedRow(start, source, s, v, start.fields[f].entity);
    UnlistedField(start, source, s, v, f);
  }

  lemma RetiredCell(start: Tables, source: int, s: Scan, v: View, c: (string, string)) returns (f: Id)
    requires Valid(start) && Tracks(start, source, s, v)
    requires c in RetiredCells(start, source, v)
    ensures f in MissingFields(s.tables, s.seenEntities, s.seenFields) && CellOf(s.tables, f) == c
  {
    hide Valid;
    hide Tracks;
    f :| f in start.fields && FieldOfSource(start, source, f) && start.fields[f].active && CellOf(start, f) == c;
    RetiredRow(start, source, s, v, f);
  }

  lemma FieldsRetired(start: Tables, source: int, s: Scan, v: View)
    requires Valid(start) && Tracks(start, source, s, v)
    ensures |MissingFields(s.tables, s.seenEntities, s.seenFields)| == |RetiredCells(start, source, v)|
  {
    hide Tracks;
    hide RetiredCells;
    TracksIndexed(start, source, s, v);
    var missing, cells := MissingFields(s.tables, s.seenEntities, s.seenFields), RetiredCells(start, source, v);
    forall f | f in missing ensures FieldOfSource(s.tables, source, f) && CellOf(s.tables, f) in cells {
      RetiredField(start, source, s, v, f);
    }
    forall f, g | f in missing && g in missing && CellOf(s.tables, f) == CellOf(s.tables, g) ensures f == g {
      var d, e := s.tables.fields[f].entity, s.tables.fields[g].entity;
      assert SameEntityKey(s.tables.entities[d], s.tables.entities[e]);
      assert SameFieldKey(s.tables.fields[f], s.tables.fields[g]);
    }
    forall c | c in cells ensures exists f :: f in missing && CellOf(s.tables, f) == c {
      var f := RetiredCell(start, source, s, v, c);
    }
    SameSize(missing, cells,
      f requires f in s.tables.fields && s.tables.fields[f].entity in s.tables.entities => CellOf(s.tables, f));
  }

  // ---- All counters ----

  /** What the counters count, for every payload and every state of the tables. */
  lemma CountersExact(t: Tables, source: int, models: seq<Listed>)
    requires Valid(t)
    ensures var (u, c) := FullSync(t, source, models); var v := PayloadView(models);
      && c.entitiesSeen == |models| && c.fieldsSeen == FieldCount(models)
      && c.entitiesCreated == |v.Keys - KnownLabels(t, source)|
      && c.fieldsCreated == |Cells(v) - KnownCells(t, source)|
      && c.entitiesDeactivated == |Visible(t, source).Keys - v.Keys|
      && c.fieldsDeactivated == |RetiredCells(t, source, v)|
      && (Unambiguous(models) ==>
            && c.entitiesUpdated == |StaleLabels(t, source, v)|
            && c.fieldsUpdated == |StaleCells(t, source, v)|)
  {
    hide Tracks;
    hide Visible;
    hide RetiredCells;
    hide StaleLabels;
    hide StaleCells;
    hide KnownCells;
    hide KnownLabels;
    hide Valid;
    ValidKeys(t);
    TracksOpen(t, source);
    TracksModels(t, source, Open(t, source), models);
    var s, v := ScanModels(Open(t, source), source, models), PayloadView(models);
    ModelsCounted(t, source, models);
    EntitiesRetired(t, source, s, v);
    FieldsRetired(t, source, s, v);
    if Unambiguous(models) {
      ModelsUpdated(t, source, models);
    }
  }

  /** Known models of the view whose row already says what the payload says. */
  ghost function UnchangedLabels(t: Tables, source: int, v: View): set<string> {
    set l | l in v && CurrentEntity(t, source, l, v[l].attributes)
  }

  ghost function UnchangedCells(t: Tables, source: int, v: View): set<(string, string)> {
    set c | c in Cells(v) && CurrentField(t, source, c, v[c.0].fields[c.1])
  }

  /**
   Every model and every field seen is created, updated or left unchanged, and the summary counts are the payload's.
   */
  lemma CountersBalance(t: Tables, source: int, models: seq<Listed>)
    requires Valid(t) && Unambiguous(models)
    ensures var (u, c) := FullSync(t, source, models); var v := PayloadView(models);
      && c.entitiesSeen == c.entitiesCreated + c.entitiesUpdated + |UnchangedLabels(t, source, v)|
      && c.fieldsSeen == c.fieldsCreated + c.fieldsUpdated + |UnchangedCells(t, source, v)|
      && |ActiveEntities(u, source)| == c.entitiesSeen && |ActiveFields(u, source)| == c.fieldsSeen
  {
    hide Visible;
    hide RetiredCells;
    hide FullSync;
    CountersExact(t, source, models);
    ViewSize(models);
    FullSyncShowsPayload(t, source, models);
    SummaryCountsView(FullSync(t, source, models).0, source);
    SplitLabels(t, source, PayloadView(models));
    SplitCells(t, source, PayloadView(models));
  }

  lemma SplitSize<T>(all: set<T>, known: set<T>, stale: set<T>, same: set<T>)
    requires same <= known * all && stale == (known * all) - same
    ensures |all| == |all - known| + |stale| + |same|
  {
    assert all == ((all - known) + stale) + same;
  }

  lemma SplitLabels(t: Tables, source: int, v: View)
    ensures |v| == |v.Keys - KnownLabels(t, source)| + |StaleLabels(t, source, v)| + |UnchangedLabels(t, source, v)|
  {
    var stale, same := StaleLabels(t, source, v), UnchangedLabels(t, source, v);
    forall l | l in same ensures l in KnownLabels(t, source) {
      var e :| EntityAt(t, source, l, e) && EntityShows(t, e, v[l].attributes);
    }
    SplitSize(v.Keys, KnownLabels(t, source), stale, same);
    assert |v| == |v.Keys|;
  }

  lemma SplitCells(t: Tables, source: int, v: View)
    ensures |Cells(v)| == |Cells(v) - KnownCells(t, source)| + |StaleCells(t, source, v)|
      + |UnchangedCells(t, source, v)|
  {
    hide CurrentField;
    var stale, same := StaleCells(t, source, v), UnchangedCells(t, source, v);
    forall c | c in same ensures c in KnownCells(t, source) {
      CurrentFieldKnown(t, source, c, v[c.0].fields[c.1]);
    }
    SplitSize(Cells(v), KnownCells(t, source), stale, same);
  }

  lemma CurrentFieldKnown(t: Tables, source: int, c: (string, string), a: FieldAttributes)
    requires CurrentField(t, source, c, a)
    ensures c in KnownCells(t, source)
  {
    var f :| FieldOfSource(t, source, f) && CellOf(t, f) == c && FieldShows(t, f, a);
  }
}
