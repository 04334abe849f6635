/**
 Starting an instance: what the local database becomes, and what that means for the published snapshot
 over whole runs of crashes, lost volumes and restarts.
 */
module Boot {
  import opened Wrappers
  import opened Records

  const SCHEMA_VERSION := 1

  const EMPTY_TABLES := Tables(map[], map[])

  /** A database file carries the version of its schema. */
  datatype DbFile = DbFile(schema: int, tables: Tables)

  /** ART_DB_RESTORE. */
  datatype RestoreMode = Unset | Auto | Ignore

  /** The snapshot store as one boot finds it; a snapshot is a file that has passed verification or has not. */
  datatype Store = NotConfigured | Unreachable | Reachable(snapshot: Option<DbFile>)

  datatype BootError =
    | NothingToServe
    | DownloadFailed
    | StoreUnreachable
    | SnapshotExists
    | SchemaMismatch(found: int)
    | DatabaseBroken

  class Instance {
    const readOnly: bool
    const restoreMode: RestoreMode

    var local: Option<DbFile>      // the file in the data directory
    var handle: Option<DbFile>     // what the open handle reads
    var following: bool            // a replica that polls for new snapshots

    constructor (readOnly: bool, restoreMode: RestoreMode, local: Option<DbFile>)
      ensures this.readOnly == readOnly && this.restoreMode == restoreMode && this.local == local
      ensures handle == None && !following
    {
      this.readOnly, this.restoreMode, this.local := readOnly, restoreMode, local;
      handle, following := None, false;
    }

    /** Fetches the published snapshot into place; only one that verifies is accepted. */
    method Download(store: Store, works: bool) returns (ok: bool)
      modifies this`local
      ensures ok <==> works && exists tables :: store == Reachable(Some(DbFile(SCHEMA_VERSION, tables)))
      ensures local == if ok then store.snapshot else old(local)
    {
      ok := Downloadable(store, works);
      if ok {
        assert store == Reachable(Some(DbFile(SCHEMA_VERSION, store.snapshot.value.tables)));
        local := store.snapshot;
      }
    }

    /** A writer whose database file is absent: a first boot or a lost volume, which only the store can tell apart. */
    method StartWithoutDatabase(store: Store, works: bool) returns (err: Option<BootError>)
      requires local == None
      modifies this`local
      ensures err == None ==>
                && (local == None <==> MayStartFresh(restoreMode, store))
                && (local.Some? ==> restoreMode == Auto && store.Reachable? && local == store.snapshot)
      ensures err.Some? ==> local == None
      ensures MayStartFresh(restoreMode, store) ==> err == None
      ensures restoreMode == Unset ==>
                (err == Some(SnapshotExists) <==> store.Reachable? && store.snapshot.Some?)
                && (err == Some(StoreUnreachable) <==> store == Unreachable)
      ensures restoreMode == Auto && store != NotConfigured ==>
                err == if Downloadable(store, works) then None else Some(DownloadFailed)
    {
      match restoreMode {
        case Ignore =>
          return None;
        case Auto =>
          if store == NotConfigured {
            return None;
          }
          var ok := Download(store, works);
          return if ok then None else Some(DownloadFailed);
        case Unset =>
      }
      match store {
        case NotConfigured => return None;
        case Unreachable => return Some(StoreUnreachable);
        case Reachable(snapshot) =>
          return if snapshot.None? then None else Some(SnapshotExists);
      }
    }

    /**
     A replica refuses any other schema; a writer stamps an older file and refuses a newer one. Reading the
     version or writing the stamp may fail, and a failure leaves the file unstamped.
     */
    method CheckSchemaVersion(faults: OpenFaults) returns (err: Option<BootError>)
      requires handle.Some? && local == handle
      modifies this`handle, this`local
      ensures handle.Some? && local == handle && handle.value.tables == old(handle).value.tables
      ensures var version := old(handle).value.schema;
              && (err == None <==>
                  faults.readWorks && (version == SCHEMA_VERSION || (!readOnly && version < SCHEMA_VERSION && faults.stampWorks)))
              && (forall found :: err == Some(SchemaMismatch(found)) <==>
                                  faults.readWorks && found == version && (version > SCHEMA_VERSION || (readOnly && version != SCHEMA_VERSION)))
              && (err.Some? ==> err.value.SchemaMismatch? || err.value == DatabaseBroken)
      ensures handle.value.schema == if err == None then SCHEMA_VERSION else old(handle).value.schema
    {
      if !faults.readWorks {
        return Some(DatabaseBroken);
      }
      var version := handle.value.schema;
      if version == SCHEMA_VERSION {
        return None;
      }
      if readOnly || version > SCHEMA_VERSION {
        return Some(SchemaMismatch(version));
      }
      if !faults.stampWorks {
        return Some(DatabaseBroken);
      }
      handle := Some(handle.value.(schema := SCHEMA_VERSION));
      local := handle;
      return None;
    }

    /**
     Decides what the local database should be and opens it. A writer starts an empty database only where
     it may, restores only in automatic mode, and otherwise refuses to start without its file. A start that
     fails once the file was opened leaves a new empty database behind exactly where it might have started
     with one; the next start finds it there.
     */
    method BootDatabase(store: Store, works: bool, faults: OpenFaults) returns (err: Option<BootError>)
      requires handle == None && !following
      modifies this
      ensures err == None <==> CanBoot(readOnly, restoreMode, old(local), store, works, faults)
      ensures err == None ==>
                && handle.Some? && local == handle && handle.value.schema == SCHEMA_VERSION
                && handle.value.tables == BootTables(readOnly, restoreMode, old(local), store)
      ensures err == None ==> (following <==> readOnly && old(local) == None)
      ensures err.Some? ==> handle == None && local == LeftBehind(readOnly, restoreMode, old(local), store, works, faults)
      ensures err == Some(NothingToServe) <==> readOnly && old(local) == None && store == NotConfigured
      ensures err == Some(DownloadFailed) <==>
              old(local) == None && (readOnly || restoreMode == Auto) && store != NotConfigured && !Downloadable(store, works)
      ensures err == Some(StoreUnreachable) <==> !readOnly && old(local) == None && restoreMode == Unset && store == Unreachable
      ensures err == Some(SnapshotExists) <==>
              !readOnly && old(local) == None && restoreMode == Unset && store.Reachable? && store.snapshot.Some?
      ensures err.Some? && err.value.SchemaMismatch? ==>
                var file := FileToOpen(readOnly, restoreMode, old(local), store, works);
                file.Some? && err.value.found == file.value.schema != SCHEMA_VERSION
    {
      if readOnly {
        if local == None {
          if store == NotConfigured {
            return Some(NothingToServe);
          }
          var ok := Download(store, works);
          if !ok {
            return Some(DownloadFailed);
          }
          following := true;
        }
      } else if local == None {
        err := StartWithoutDatabase(store, works);
        if err.Some? {
          return;
        }
      }
      if local == None && (faults.openWorks || faults.openCreates) {
        // Opening an absent file for writing creates it, unstamped, and configuring it may still fail.
        local := Some(NEW_FILE);
      }
      if !faults.openWorks || !faults.initWorks {
        return Some(DatabaseBroken);
      }
      handle := local;
      err := CheckSchemaVersion(faults);
      if err.Some? {
        handle := None;
      }
    }
  }

  /**
   Which calls of opening a database fail: opening and configuring it, which may fail before or after an
   absent file was created; applying the schema; reading the version; writing the stamp.
   */
  datatype OpenFaults = OpenFaults(openWorks: bool, openCreates: bool, initWorks: bool, readWorks: bool, stampWorks: bool)

  const NO_OPEN_FAULTS := OpenFaults(true, true, true, true, true)

  /** A database file that was just created. */
  const NEW_FILE := DbFile(0, EMPTY_TABLES)

  predicate Downloadable(store: Store, works: bool) {
    works && store.Reachable? && store.snapshot.Some? && store.snapshot.value.schema == SCHEMA_VERSION
  }

  /** The versions an instance can work with; a writer has to stamp an older file. */
  predicate Accepts(readOnly: bool, file: DbFile, stampWorks: bool) {
    file.schema == SCHEMA_VERSION || (!readOnly && file.schema < SCHEMA_VERSION && stampWorks)
  }

  /** The file an instance comes to open: its own, a new one, or the published snapshot; None when it refuses before. */
  function FileToOpen(readOnly: bool, mode: RestoreMode, local: Option<DbFile>, store: Store, works: bool): Option<DbFile> {
    if local.Some? then local
    else if !readOnly && MayStartFresh(mode, store) then Some(NEW_FILE)
    else if (readOnly || mode == Auto) && Downloadable(store, works) then store.snapshot
    else None
  }

  /** When an instance starts. */
  predicate CanBoot(readOnly: bool, mode: RestoreMode, local: Option<DbFile>, store: Store, works: bool, faults: OpenFaults) {
    var file := FileToOpen(readOnly, mode, local, store, works);
    && file.Some? && faults.openWorks && faults.initWorks && faults.readWorks
    && Accepts(readOnly, file.value, faults.stampWorks)
  }

  /** What it then serves. */
  function BootTables(readOnly: bool, mode: RestoreMode, local: Option<DbFile>, store: Store): Tables {
    match local
    case Some(file) => file.tables
    case None =>
      if !readOnly && MayStartFresh(mode, store) then EMPTY_TABLES
      else if store.Reachable? && store.snapshot.Some? then store.snapshot.value.tables
      else EMPTY_TABLES
  }

  /** The local file after a start that failed. */
  function LeftBehind(readOnly: bool, mode: RestoreMode, local: Option<DbFile>, store: Store, works: bool, faults: OpenFaults)
    : Option<DbFile>
  {
    if local == None && !readOnly && MayStartFresh(mode, store) && !faults.openWorks && !faults.openCreates then None
    else FileToOpen(readOnly, mode, local, store, works)
  }

  /** When a writer without a database file may start an empty one. */
  predicate MayStartFresh(mode: RestoreMode, store: Store) {
    || mode == Ignore
    || store == NotConfigured
    || (mode == Unset && store == Reachable(None))
  }

  // ---- One writer over its whole life ----

  /** A publish of the running writer: nothing, or a copy made and not yet stored. */
  datatype Publishing = Idle | Copied(copy: Tables)

  /**
   The writer's data directory, whether it runs and has a store configured to publish to, what it is
   publishing, and what is published.
   */
  datatype Deployment = Deployment(local: Option<DbFile>, up: bool, configured: bool, publishing: Publishing, published: Option<DbFile>)

  const UNUSED := Deployment(None, false, false, Idle, None)

  datatype Happening =
    | Start(mode: RestoreMode, configured: bool, reachable: bool, works: bool, faults: OpenFaults)   // a boot, successful or not
    | Change(tables: Tables)           // any requests' committed changes
    | Copy
    | Put(arrives: bool)               // the copy reaches the store, or the attempt fails
    | GiveUp                           // a publish that fails before its put
    | Crash
    | LoseVolume
    | RestoreCommand(works: bool)      // restore-db into an absent file

  predicate Possible(d: Deployment, h: Happening) {
    match h
    case Start(_, _, _, _, _) => !d.up
    case Change(_) => d.up && d.local.Some?
    case Copy => d.up && d.configured && d.local.Some? && d.publishing == Idle
    case Put(_) => d.up && d.publishing.Copied?
    case GiveUp => d.up
    case Crash => true
    case LoseVolume => !d.up
    case RestoreCommand(works) => !d.up && d.local == None && Downloadable(StoreOf(d, true, true), works)
  }

  function StoreOf(d: Deployment, configured: bool, reachable: bool): Store {
    if !configured then NotConfigured else if reachable then Reachable(d.published) else Unreachable
  }

  /** A boot, with the outcome BootDatabase promises. */
  function AfterStart(d: Deployment, mode: RestoreMode, store: Store, works: bool, faults: OpenFaults): Deployment {
    if CanBoot(false, mode, d.local, store, works, faults) then
      d.(up := true, configured := store != NotConfigured, publishing := Idle, local := Some(DbFile(SCHEMA_VERSION, BootTables(false, mode, d.local, store))))
    else
      d.(publishing := Idle, local := LeftBehind(false, mode, d.local, store, works, faults))
  }

  function After(d: Deployment, h: Happening): Deployment
    requires Possible(d, h)
  {
    match h
    case Start(mode, configured, reachable, works, faults) => AfterStart(d, mode, StoreOf(d, configured, reachable), works, faults)
    case Change(tables) => d.(local := Some(d.local.value.(tables := tables)))
    case Copy => d.(publishing := Copied(d.local.value.tables))
    case Put(arrives) =>
      d.(publishing := Idle,
         published := if arrives then Some(DbFile(SCHEMA_VERSION, d.publishing.copy)) else d.published)
    case GiveUp => d.(publishing := Idle)
    case Crash => d.(up := false, publishing := Idle)
    case LoseVolume => d.(local := None)
    case RestoreCommand(_) => d.(local := d.published)
  }

  /** What is published is never ahead of the copy on its way, nor that of the local database. */
  ghost predicate InOrder(d: Deployment) {
    && (d.published.Some? && d.local.Some? ==> Advances(d.published.value.tables, d.local.value.tables))
    && (d.publishing.Copied? ==>
          && d.up && d.local.Some? && Advances(d.publishing.copy, d.local.value.tables)
          && (d.published.Some? ==> Advances(d.published.value.tables, d.publishing.copy)))
  }

  /** Requests only ever advance rows, which is what every action of the protocol does. */
  ghost predicate Lawful(d: Deployment, h: Happening) {
    Possible(d, h) && (h.Change? ==> Advances(d.local.value.tables, h.tables))
  }

  /**
   A boot in ignore mode, or without the store configured, that finds no database file although records are
   published, and gets far enough to create one: whether it then succeeds or not, an empty database stands
   where the records were.
   */
  predicate Forgets(d: Deployment, h: Happening) {
    && h.Start? && (h.mode == Ignore || !h.configured) && d.local == None && (h.faults.openWorks || h.faults.openCreates)
    && d.published.Some? && d.published.value.tables.files != map[]
  }

  ghost predicate IsLife(ds: seq<Deployment>, hs: seq<Happening>) {
    && |ds| == |hs| + 1
    && ds[0] == UNUSED
    && forall i | 0 <= i < |hs| :: Lawful(ds[i], hs[i]) && ds[i + 1] == After(ds[i], hs[i])
  }

  /** Among everything that can happen, exactly such a boot lets the local database fall behind what is published. */
  lemma OnlyForgettingBreaksOrder(d: Deployment, h: Happening)
    requires InOrder(d) && Lawful(d, h)
    ensures InOrder(After(d, h)) <==> !Forgets(d, h)
    ensures d.published.Some? ==> After(d, h).published.Some? && Advances(d.published.value.tables, After(d, h).published.value.tables)
  {
    match h
    case Start(_, _, _, _, _) =>
      if Forgets(d, h) {
        var s :| s in d.published.value.tables.files;
        assert s !in EMPTY_TABLES.files;
      }
    case Change(tables) =>
      if d.published.Some? {
        AdvancesIsTransitive(d.published.value.tables, d.local.value.tables, tables);
      }
      if d.publishing.Copied? {
        AdvancesIsTransitive(d.publishing.copy, d.local.value.tables, tables);
      }
    case _ =>
  }

  /**
   Over every life of a writer - crashes, lost volumes, failed boots and publishes in any order, as long
   as none forgets - the published snapshot only ever advances: no record leaves it and none goes back a
   stage.
   */
  lemma {:induction false} PublishedOnlyAdvances(ds: seq<Deployment>, hs: seq<Happening>, i: nat, j: nat)
    requires IsLife(ds, hs) && i <= j < |ds|
    requires forall k | 0 <= k < j :: !Forgets(ds[k], hs[k])
    ensures InOrder(ds[j])
    ensures ds[i].published.Some? ==>
              ds[j].published.Some? && Advances(ds[i].published.value.tables, ds[j].published.value.tables)
  {
    hide Forgets, After, InOrder;
    if j > 0 {
      PublishedOnlyAdvances(ds, hs, if i < j then i else j - 1, j - 1);
      OnlyForgettingBreaksOrder(ds[j - 1], hs[j - 1]);
      if i < j && ds[i].published.Some? {
        AdvancesIsTransitive(ds[i].published.value.tables, ds[j - 1].published.value.tables, ds[j].published.value.tables);
      }
    } else {
      UnusedIsInOrder();
    }
  }

  lemma UnusedIsInOrder()
    ensures InOrder(UNUSED)
    ensures UNUSED.published == None
  {
  }

  // ---- What a boot that forgets leads to ----

  /** Some record that was published is published no more. */
  ghost predicate LosesRecords(before: Deployment, after: Deployment) {
    && before.published.Some? && after.published.Some?
    && exists s :: s in before.published.value.tables.files && s !in after.published.value.tables.files
  }

  const QUIET_START := Start(Unset, true, true, true, NO_OPEN_FAULTS)

  /** The deployment once a boot, or else the one after it, has succeeded with the store configured. */
  function Booted(d: Deployment, h: Happening): Deployment
    requires Possible(d, h)
  {
    if After(d, h).up && After(d, h).configured then After(d, h) else After(After(After(d, h), Crash), QUIET_START)
  }

  /**
   After any boot that forgets - or, when it fails or has no store to publish to, after the next one, then in
   any mode - publishing a copy, at once or after the first new records, loses every published record that is not among the new ones.
   */
  lemma ForgettingLosesRecords(d: Deployment, h: Happening, tables: Tables, slug: Slug) returns (after: Deployment)
    requires Possible(d, h) && Forgets(d, h)
    requires slug in d.published.value.tables.files && slug !in tables.files
    ensures Booted(d, h).up && Booted(d, h).local == Some(DbFile(SCHEMA_VERSION, EMPTY_TABLES))
    ensures Lawful(Booted(d, h), Change(tables))
    ensures var changed := After(Booted(d, h), Change(tables));
            && Lawful(changed, Copy) && Lawful(After(changed, Copy), Put(true))
            && after == After(After(changed, Copy), Put(true))
            && after.published == Some(DbFile(SCHEMA_VERSION, tables))
    ensures LosesRecords(d, after) && !Advances(d.published.value.tables, after.published.value.tables)
  {
    var changed := After(Booted(d, h), Change(tables));
    after := After(After(changed, Copy), Put(true));
    assert slug in d.published.value.tables.files && slug !in after.published.value.tables.files;
  }

  /** Lets one more thing happen at the end of a life. */
  lemma LiveOn(ds: seq<Deployment>, hs: seq<Happening>, h: Happening) returns (ds': seq<Deployment>, hs': seq<Happening>)
    requires IsLife(ds, hs) && Lawful(ds[|hs|], h)
    ensures IsLife(ds', hs') && ds'[|hs'|] == After(ds[|hs|], h)
    ensures ds <= ds'
  {
    ds', hs' := ds + [After(ds[|hs|], h)], hs + [h];
  }

  /** A whole life in which it happens: a record published, the volume lost, a boot in ignore mode, a new record published. */
  lemma IgnoringLosesRecords(rec: FileRecord, other: FileRecord) returns (ds: seq<Deployment>, hs: seq<Happening>, i: nat)
    requires rec.slug != other.slug
    ensures IsLife(ds, hs) && i < |ds| && LosesRecords(ds[i], ds[|hs|])
  {
    hide IsLife;
    var tables := EMPTY_TABLES.Insert(rec);
    ds, hs := FreshLife();
    ds, hs := LiveOn(ds, hs, QUIET_START);
    ds, hs := PublishChange(ds, hs, tables);
    i := |ds| - 1;
    ghost var before := ds[i];
    assert rec.slug in before.published.value.tables.files && i == |hs| by {
      LifeLength(ds, hs);
    }
    ds, hs := LiveOn(ds, hs, Crash);
    ds, hs := LiveOn(ds, hs, LoseVolume);
    ds, hs := LiveOn(ds, hs, Start(Ignore, true, true, true, NO_OPEN_FAULTS));
    ds, hs := PublishChange(ds, hs, EMPTY_TABLES.Insert(other));
    LifeLength(ds, hs);
    assert ds[i] == before;
    assert rec.slug !in ds[|hs|].published.value.tables.files;
  }

  lemma LifeLength(ds: seq<Deployment>, hs: seq<Happening>)
    requires IsLife(ds, hs)
    ensures |ds| == |hs| + 1
  {
  }

  lemma FreshLife() returns (ds: seq<Deployment>, hs: seq<Happening>)
    ensures IsLife(ds, hs) && hs == [] && ds == [UNUSED]
  {
    ds, hs := [UNUSED], [];
  }

  lemma PublishChange(ds: seq<Deployment>, hs: seq<Happening>, tables: Tables)
    returns (ds': seq<Deployment>, hs': seq<Happening>)
    requires IsLife(ds, hs) && Lawful(ds[|hs|], Change(tables)) && ds[|hs|].configured && ds[|hs|].publishing == Idle
    ensures IsLife(ds', hs') && ds <= ds'
    ensures ds'[|hs'|] == ds[|hs|].(local := Some(ds[|hs|].local.value.(tables := tables)),
                                    published := Some(DbFile(SCHEMA_VERSION, tables)))
  {
    ds', hs' := LiveOn(ds, hs, Change(tables));
    ds', hs' := LiveOn(ds', hs', Copy);
    ds', hs' := LiveOn(ds', hs', Put(true));
  }

  // ---- Automatic restoring never makes a first start ----

  /**
   With a store configured, a deployment whose every boot is in automatic mode never comes up and never
   gets a database: there is nothing to restore, and it will not start without.
   */
  lemma {:induction false} AutoNeverStarts(ds: seq<Deployment>, hs: seq<Happening>, j: nat)
    requires IsLife(ds, hs) && j < |ds|
    requires forall k | 0 <= k < j && hs[k].Start? :: hs[k].mode == Auto && hs[k].configured
    ensures ds[j] == UNUSED
  {
    if j > 0 {
      AutoNeverStarts(ds, hs, j - 1);
    }
  }
}
