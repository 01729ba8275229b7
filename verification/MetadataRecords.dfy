/** What a synchronisation records of itself, and what a run shows of each model it was sent. */
module MetadataRecords {
  import opened Prelude
  import opened Metadata
  import opened SnapshotHash
  import opened PayloadViews
  import opened MetadataSync
  import opened MetadataSyncTheory
  import opened MetadataView
  import opened MetadataOutcome
  import opened MetadataRuns

  /** The source's row after a synchronisation: its id stays, a new one gets a new id; the details are the payload's. */
  ghost predicate SourceRecorded(before: Database, after: Database, p: Payload, succeeded: bool, now: int) {
    && p.sourceKey in after.sources
    && var row := after.sources[p.sourceKey];
    && row.info == p.info
    && (if p.sourceKey in before.sources then row.id == before.sources[p.sourceKey].id
        else forall k :: k in before.sources ==> before.sources[k].id != row.id)
    && row.lastSyncAt == if succeeded then Some(now)
         else if p.sourceKey in before.sources then before.sources[p.sourceKey].lastSyncAt else None
  }

  /** The run's own row: the snapshot's hash and, on success, how many models and fields were listed. */
  ghost predicate RunRecorded(run: SyncRun, source: int, p: Payload, succeeded: bool) {
    && run.source == source && run.hash == Canonical(p)
    && run.status == (if succeeded then Success else Failed)
    && run.models == (if succeeded then |Models(p.apps)| else 0)
    && run.fields == (if succeeded then FieldCount(Models(p.apps)) else 0)
  }

  /** One synchronisation adds one run record, updates its own source and leaves every other source alone. */
  lemma SynchronizeRecords(db: Database, p: Payload, fault: Option<Fault>, now: int)
    requires ValidDatabase(db)
    ensures var (after, r) := Synchronize(db, p, fault, now);
      && (r.Ok? <==> fault.None?)
      && SourceRecorded(db, after, p, fault.None?, now)
      && (forall k :: k in db.sources && k != p.sourceKey ==> k in after.sources && after.sources[k] == db.sources[k])
      && (forall k :: k in after.sources ==> k == p.sourceKey || k in db.sources)
      && |after.runs| == |db.runs| + 1 && after.runs[..|db.runs|] == db.runs
      && RunRecorded(after.runs[|db.runs|], after.sources[p.sourceKey].id, p, fault.None?)
  {
    hide Synchronize;
    hide WithSource;
    hide ValidDatabase;
    hide RunRecorded;
    OpenedSource(db, p);
    KeysOf(db);
    FinishedSource(db, WithSource(db, p), p, fault, now);
  }

  lemma KeysOf(db: Database)
    requires ValidDatabase(db)
    ensures UniqueEntities(db.tables) && UniqueFields(db.tables) && Valid(db.tables)
  {
    ValidKeys(db.tables);
  }

  /** The source's row as the synchronisation opens it. */
  lemma OpenedSource(db: Database, p: Payload)
    requires ValidDatabase(db)
    ensures var d := WithSource(db, p);
      && SourceRecorded(db, d, p, false, 0) && d.runs == db.runs && d.tables == db.tables
      && (forall k :: k in db.sources && k != p.sourceKey ==> k in d.sources && d.sources[k] == db.sources[k])
      && (forall k :: k in d.sources ==> k == p.sourceKey || k in db.sources)
  {
    hide Valid;
  }

  lemma FinishedSource(db: Database, d: Database, p: Payload, fault: Option<Fault>, now: int)
    requires d == WithSource(db, p) && Valid(db.tables) && UniqueEntities(db.tables) && UniqueFields(db.tables)
    ensures var (after, r) := Synchronize(db, p, fault, now); var row := d.sources[p.sourceKey];
      && (r.Ok? <==> fault.None?)
      && after.sources == (if fault.None? then d.sources[p.sourceKey := row.(lastSyncAt := Some(now))] else d.sources)
      && |after.runs| == |d.runs| + 1 && after.runs[..|d.runs|] == d.runs
      && RunRecorded(after.runs[|d.runs|], row.id, p, fault.None?)
  {
    hide FullSync;
    hide Interrupted;
    hide Visible;
    hide RetiredCells;
    hide Canonical;
    hide Valid;
    hide WithSource;
    hide UniqueEntities;
    hide UniqueFields;
    if fault.None? {
      CountersExact(d.tables, d.sources[p.sourceKey].id, Models(p.apps));
    }
  }

  /**
   Over every run, a source shows each model of the last payload it synchronised successfully as that payload lists
   it, and no other label, when the payload names no model label and no field of a model twice.
   */
  lemma EveryRunShowsModels(events: seq<Event>, key: string, p: Payload)
    requires LastPayload(events, key) == Some(p) && UnambiguousApps(p.apps)
    ensures var v := Shown(Run(events), key);
      && (forall i, j :: 0 <= i < |p.apps| && 0 <= j < |p.apps[i].models| ==> ShowsModel(v, p.apps[i].models[j]))
      && forall l :: l in v ==> exists i, j :: LabelAt(p.apps, l, i, j)
  {
    hide Shown;
    hide Run;
    hide ShowsModel;
    EveryRunShowsLastPayload(events, key);
    PayloadShown(p.apps);
  }
}
