/** Synchronisation as a whole: sources, run records, rollback, and every run of them. */
module MetadataRuns {
  import opened Prelude
  import opened Metadata
  import opened SnapshotHash
  import opened MetadataSync
  import opened MetadataSyncTheory
  import opened MetadataView
  import opened MetadataAppLabels

  datatype SourceRow = SourceRow(id: int, info: SourceInfo, lastSyncAt: Option<int>)

  datatype Status = InProgress | Success | Failed

  datatype SyncRun = SyncRun(source: int, hash: Payload, models: int, fields: int, status: Status)

  datatype Database = Database(sources: map<string, SourceRow>, nextSource: int, tables: Tables, runs: seq<SyncRun>)

  const Empty := Database(map[], 1, Tables(map[], map[], 1, 1), [])

  datatype SyncError = SyncError

  /** The source row is created or takes the payload's description before anything can fail. */
  function WithSource(db: Database, p: Payload): (d: Database)
    ensures p.sourceKey in d.sources && d.tables == db.tables
  {
    if p.sourceKey in db.sources then
      db.(sources := db.sources[p.sourceKey := db.sources[p.sourceKey].(info := p.info)])
    else
      db.(sources := db.sources[p.sourceKey := SourceRow(db.nextSource, p.info, None)], nextSource := db.nextSource + 1)
  }

  /**
   Where an exception is raised: in the pass after that many models and, in the next one, before its entity or
   after its entity and that many fields; or after the pass with none, one or both of the marking steps done.
   */
  datatype Fault = InPass(models: nat, fields: Option<nat>) | AfterPass(marks: nat)

  function UpTo(fields: seq<FieldMetadata>, stop: Option<nat>): seq<FieldMetadata> {
    if stop.None? || stop.value >= |fields| then fields else fields[..stop.value]
  }

  /** A model of which only the first fields are worked through. */
  function CutTo(m: Listed, stop: Option<nat>): Listed {
    m.(model := m.model.(fields := UpTo(m.model.fields, stop)))
  }

  /** The models, the last one perhaps in part, that a pass works through before the exception. */
  function Reached(models: seq<Listed>, fault: Fault): seq<Listed> {
    if fault.AfterPass? || fault.models >= |models| then models
    else if fault.fields.None? then models[..fault.models]
    else models[..fault.models] + [CutTo(models[fault.models], fault.fields)]
  }

  /** The tables at the moment of the exception. */
  function Interrupted(t: Tables, source: int, models: seq<Listed>, fault: Fault): Tables
    requires UniqueEntities(t) && UniqueFields(t)
  {
    var s := ScanModels(Open(t, source), source, Reached(models, fault));
    if fault.InPass? || fault.marks == 0 then s.tables
    else if fault.marks == 1 then DeactivateEntities(s.tables, source, s.seenLabels)
    else Close(s, source).0
  }

  /** Rolling back to the savepoint restores the rows; ids taken from the sequences stay taken. */
  function RolledBack(before: Tables, after: Tables): Tables {
    before.(nextEntity := after.nextEntity, nextField := after.nextField)
  }

  /** sync_full_snapshot: `fault` raises an exception inside the savepoint. */
  function Synchronize(db: Database, p: Payload, fault: Option<Fault>, now: int)
    : (Database, Result<Counters, SyncError>)
    requires UniqueEntities(db.tables) && UniqueFields(db.tables)
  {
    var d := WithSource(db, p);
    var row := d.sources[p.sourceKey];
    var models := Models(p.apps);
    if fault.Some? then
      var tables := Interrupted(d.tables, row.id, models, fault.value);
      (d.(tables := RolledBack(d.tables, tables), runs := d.runs + [SyncRun(row.id, Canonical(p), 0, 0, Failed)]),
       Err(SyncError))
    else
      var (t, c) := FullSync(d.tables, row.id, models);
      (d.(tables := t, sources := d.sources[p.sourceKey := row.(lastSyncAt := Some(now))],
          runs := d.runs + [SyncRun(row.id, Canonical(p), c.entitiesSeen, c.fieldsSeen, Success)]),
       Ok(c))
  }

  // ---- Every run ----

  ghost predicate ValidDatabase(db: Database) {
    && Valid(db.tables)
    && (forall k :: k in db.sources ==> db.sources[k].id < db.nextSource)
    && (forall j, k :: j in db.sources && k in db.sources && db.sources[j].id == db.sources[k].id ==> j == k)
    && (forall e :: e in db.tables.entities ==> db.tables.entities[e].source < db.nextSource)
  }

  datatype Event = Event(payload: Payload, fault: Option<Fault>, now: int)

  function Run(events: seq<Event>): (db: Database)
    ensures ValidDatabase(db)
  {
    if events == [] then Empty else
      var e := events[|events| - 1];
      var before := Run(events[..|events| - 1]);
      SynchronizeValid(before, e.payload, e.fault, e.now);
      Synchronize(before, e.payload, e.fault, e.now).0
  }

  /** The payload of the last synchronisation of a source that succeeded. */
  function LastPayload(events: seq<Event>, key: string): Option<Payload> {
    if events == [] then None else
      var e := events[|events| - 1];
      if e.payload.sourceKey == key && e.fault.None? then Some(e.payload)
      else LastPayload(events[..|events| - 1], key)
  }

  /** What a source shows, by its key; an unknown source shows nothing. */
  ghost function Shown(db: Database, key: string): View
    requires ValidDatabase(db)
  {
    if key in db.sources then Visible(db.tables, db.sources[key].id) else map[]
  }

  lemma WithSourceValid(db: Database, p: Payload)
    requires ValidDatabase(db)
    ensures ValidDatabase(WithSource(db, p))
    ensures forall k :: Shown(WithSource(db, p), k) == Shown(db, k)
  {
    hide Visible;
    hide Valid;
    ValidKeys(db.tables);
    var d := WithSource(db, p);
    if p.sourceKey !in db.sources {
      NewSourceShowsNothing(db.tables, db.nextSource);
    }
  }

  lemma NewSourceShowsNothing(t: Tables, source: int)
    requires UniqueEntities(t) && UniqueFields(t)
    requires forall e :: e in t.entities ==> t.entities[e].source < source
    ensures Visible(t, source) == map[]
  {
    assert Visible(t, source).Keys == {};
  }

  /** Wherever the exception is raised, rolling back leaves valid tables that show every source what they showed. */
  lemma RolledBackValid(t: Tables, source: int, models: seq<Listed>, fault: Fault)
    requires Valid(t)
    ensures var u := RolledBack(t, Interrupted(t, source, models, fault));
      Valid(u) && forall s :: Visible(u, s) == Visible(t, s)
  {
    hide Visible;
    hide Valid;
    hide ScanModels;
    ValidKeys(t);
    PassRolledBack(t, source, Reached(models, fault));
  }

  lemma PassRolledBack(t: Tables, source: int, models: seq<Listed>)
    requires Valid(t)
    ensures var u := RolledBack(t, ScanModels(Open(t, source), source, models).tables);
      Valid(u) && forall s :: Visible(u, s) == Visible(t, s)
  {
    hide Visible;
    TracksOpen(t, source);
    TracksModels(t, source, Open(t, source), models);
    var s := ScanModels(Open(t, source), source, models);
    IdsStayTaken(t, source, s, PayloadView(models));
    var u := RolledBack(t, s.tables);
    forall o ensures Visible(u, o) == Visible(t, o) {
      SameRowsVisible(t, u, o);
    }
  }

  lemma IdsStayTaken(t: Tables, source: int, s: Scan, v: View)
    requires Valid(t) && Tracks(t, source, s, v)
    ensures Valid(RolledBack(t, s.tables))
  {
    hide Indexed;
    hide EntitiesTracked;
    hide FieldsTracked;
    hide UniqueEntities;
    hide UniqueFields;
    var u := RolledBack(t, s.tables);
    SameRowsUnique(t, u);
  }

  lemma SameRowsUnique(t: Tables, u: Tables)
    requires UniqueEntities(t) && UniqueFields(t) && t.entities == u.entities && t.fields == u.fields
    ensures UniqueEntities(u) && UniqueFields(u)
  {
  }

  lemma SameRowsVisible(t: Tables, u: Tables, source: int)
    requires UniqueEntities(t) && UniqueFields(t) && t.entities == u.entities && t.fields == u.fields
    ensures UniqueEntities(u) && UniqueFields(u) && Visible(u, source) == Visible(t, source)
  {
    SameRowsUnique(t, u);
    forall e ensures FieldsOf(t, e) == FieldsOf(u, e) {
    }
    forall l | l in Visible(t, source)
      ensures l in Visible(u, source) && Visible(u, source)[l] == Visible(t, source)[l]
    {
      var e := RowOfView(t, source, l);
      ViewOfRow(t, source, l, e);
      ViewOfRow(u, source, l, e);
    }
    forall l | l in Visible(u, source) ensures l in Visible(t, source) {
      var e := RowOfView(u, source, l);
      ViewOfRow(t, source, l, e);
    }
    assert Visible(t, source) == Visible(u, source);
  }

  lemma ScannedSources(t: Tables, source: int, models: seq<Listed>, e: Id)
    requires Valid(t)
    ensures var u := FullSync(t, source, models).0;
      e in u.entities ==>
        u.entities[e].source == source || (e in t.entities && u.entities[e].source == t.entities[e].source)
  {
    hide Close;
    hide Valid;
    ValidKeys(t);
    TracksOpen(t, source);
    TracksModels(t, source, Open(t, source), models);
    var s := ScanModels(Open(t, source), source, models);
    CloseEntity(s, source, e);
  }

  /** A synchronisation keeps the database valid, whether it succeeds or fails. */
  lemma SynchronizeValid(db: Database, p: Payload, fault: Option<Fault>, now: int)
    requires ValidDatabase(db)
    ensures ValidDatabase(Synchronize(db, p, fault, now).0)
  {
    hide Visible;
    hide FullSync;
    hide Valid;
    hide ScanModels;
    hide Interrupted;
    ValidKeys(db.tables);
    WithSourceValid(db, p);
    var d := WithSource(db, p);
    var row, models := d.sources[p.sourceKey], Models(p.apps);
    if fault.Some? {
      RolledBackValid(d.tables, row.id, models, fault.value);
    } else {
      FullSyncShowsPayload(d.tables, row.id, models);
      forall e | e in FullSync(d.tables, row.id, models).0.entities
        ensures FullSync(d.tables, row.id, models).0.entities[e].source < d.nextSource
      {
        ScannedSources(d.tables, row.id, models, e);
      }
    }
  }

  /** One synchronisation changes what its own source shows, and only if it succeeds. */
  lemma SynchronizeShows(db: Database, p: Payload, fault: Option<Fault>, now: int, key: string)
    requires ValidDatabase(db)
    ensures ValidDatabase(Synchronize(db, p, fault, now).0)
    ensures Shown(Synchronize(db, p, fault, now).0, key) ==
      if key == p.sourceKey && fault.None? then PayloadView(Models(p.apps)) else Shown(db, key)
  {
    hide Visible;
    hide FullSync;
    hide Valid;
    hide ScanModels;
    hide Interrupted;
    ValidKeys(db.tables);
    SynchronizeValid(db, p, fault, now);
    WithSourceValid(db, p);
    var d := WithSource(db, p);
    var row, models := d.sources[p.sourceKey], Models(p.apps);
    assert Shown(d, key) == Shown(db, key);
    if fault.Some? {
      RolledBackValid(d.tables, row.id, models, fault.value);
    } else {
      FullSyncShowsPayload(d.tables, row.id, models);
    }
  }

  /**
   Over every run, for any mix of sources, successes and failures, a source shows exactly the last payload
   it synchronised successfully.
   */
  lemma {:induction false} EveryRunShowsLastPayload(events: seq<Event>, key: string)
    ensures Shown(Run(events), key) ==
      match LastPayload(events, key) case None => map[] case Some(p) => PayloadView(Models(p.apps))
  {
    hide Synchronize;
    hide Visible;
    if events != [] {
      var e := events[|events| - 1];
      EveryRunShowsLastPayload(events[..|events| - 1], key);
      SynchronizeShows(Run(events[..|events| - 1]), e.payload, e.fault, e.now, key);
    }
  }

  // ---- App labels over every run ----

  /** A source that lists one model under one app and then under another. */
  function MovingModel(key: string, m: ModelMetadata, first: string, second: string): seq<Event> {
    [Event(Payload(key, SourceInfo(key, None, key, None), 0, "1", [AppMetadata(first, None, [m])]), None, 0),
     Event(Payload(key, SourceInfo(key, None, key, None), 1, "1", [AppMetadata(second, None, [m])]), None, 1)]
  }

  /** A run whose last payload lists a model under an app label that is never shown. */
  lemma LastAppLabelNotShown(key: string, m: ModelMetadata, first: string, second: string)
    requires UniqueNames(m.fields) && first != second
    ensures var db := Run(MovingModel(key, m, first, second));
      && key in db.sources
      && var labels := AppLabels(db.tables, db.sources[key].id);
      m.modelLabel in labels && labels[m.modelLabel] == first
  {
    hide FullSync;
    hide AppLabels;
    hide Visible;
    hide Valid;
    var events := MovingModel(key, m, first, second);
    assert events[..1][..0] == [];
    assert Run([]) == Empty;
    var start := WithSource(Empty, events[0].payload);
    WithSourceValid(Empty, events[0].payload);
    OneModel(first, m);
    OneModel(second, m);
    NewSourceShowsNothing(Empty.tables, 1);
    MovedModelIsStale(start.tables, 1, m, first, second);
    ValidKeys(Run(events[..1]).tables);
    assert Run(events[..1]) == Synchronize(Empty, events[0].payload, None, 0).0;
    assert Run(events) == Synchronize(Run(events[..1]), events[1].payload, None, 1).0;
  }

  lemma OneModel(app: string, m: ModelMetadata)
    ensures Models([AppMetadata(app, None, [m])]) == [Listed(app, m)]
  {
    assert [AppMetadata(app, None, [m])][..0] == [];
  }

  /** The payload lists each model under the app its label determines. */
  ghost predicate ListedBy(p: Payload, appOf: string -> string) {
    forall i :: 0 <= i < |Models(p.apps)| ==> Models(p.apps)[i].appLabel == appOf(Models(p.apps)[i].model.modelLabel)
  }

  lemma OtherSyncKeepsLabels(t: Tables, source: int, models: seq<Listed>, other: int, appOf: string -> string)
    requires Valid(t) && other != source && LabelledBy(t, other, appOf)
    ensures LabelledBy(FullSync(t, source, models).0, other, appOf)
  {
    hide Close;
    hide Tracks;
    ValidKeys(t);
    TracksOpen(t, source);
    TracksModels(t, source, Open(t, source), models);
    var s := ScanModels(Open(t, source), source, models);
    var u := Close(s, source).0;
    forall e | e in u.entities && u.entities[e].source == other
      ensures e in t.entities && u.entities[e] == t.entities[e]
    {
      KeptEntity(t, source, s, PayloadView(models), e);
    }
  }

  lemma SynchronizeKeepsLabels(db: Database, p: Payload, fault: Option<Fault>, now: int, key: string,
      appOf: string -> string)
    requires ValidDatabase(db) && (p.sourceKey == key ==> ListedBy(p, appOf))
    requires key in db.sources ==> LabelledBy(db.tables, db.sources[key].id, appOf)
    ensures var d := Synchronize(db, p, fault, now).0;
      key in d.sources ==> LabelledBy(d.tables, d.sources[key].id, appOf)
  {
    hide FullSync;
    hide Valid;
    hide ScanModels;
    hide Interrupted;
    ValidKeys(db.tables);
    var d := WithSource(db, p);
    if key in d.sources && fault.None? {
      WithSourceValid(db, p);
      var id, source := d.sources[key].id, d.sources[p.sourceKey].id;
      assert LabelledBy(d.tables, id, appOf);
      if p.sourceKey == key {
        SyncKeepsLabels(d.tables, source, Models(p.apps), appOf);
      } else {
        OtherSyncKeepsLabels(d.tables, source, Models(p.apps), id, appOf);
      }
    }
  }

  /** If every payload of a source lists its models by one rule, its active rows carry that rule's app labels. */
  lemma {:induction false} EveryRunShowsAppLabels(events: seq<Event>, key: string, appOf: string -> string)
    requires forall i :: 0 <= i < |events| && events[i].payload.sourceKey == key ==> ListedBy(events[i].payload, appOf)
    ensures key in Run(events).sources ==> LabelledBy(Run(events).tables, Run(events).sources[key].id, appOf)
  {
    hide Synchronize;
    hide LabelledBy;
    hide ListedBy;
    if events != [] {
      var front, e := events[..|events| - 1], events[|events| - 1];
      forall i | 0 <= i < |front| && front[i].payload.sourceKey == key ensures ListedBy(front[i].payload, appOf) {
        assert front[i] == events[i];
      }
      EveryRunShowsAppLabels(front, key, appOf);
      SynchronizeKeepsLabels(Run(front), e.payload, e.fault, e.now, key, appOf);
    }
  }
}
