/**
 The server: its request handlers, each with what it changes and refuses. The server keeps the run of the
 protocol it has performed, so everything proved of all runs holds of it between any two requests.
 */
module Handlers {
  import opened Wrappers
  import opened Bytes
  import opened Keys
  import opened TagSyntax
  import opened Records
  import opened Catalogue
  import opened Streams
  import opened BlobStores
  import opened Races
  import opened Protocol
  import opened Guarantees
  import opened Effects
  import opened Uploads

  class Server {
    const db: Database
    const storage: FsStorage
    const config: Config

    // The run of the protocol this server has performed so far.
    ghost var states: seq<State>
    ghost var actions: seq<Action>

    ghost predicate Synced()
      reads this, db, storage
    {
      && MIN_INT64 <= config.maxContentLength <= MAX_INT64
      && IsRun(states, actions)
      && Now().stores.tables == db.tables && Now().stores.blobs == storage.files
      && db.Valid()
    }

    /** Between requests: the tables and the files are where a run of the protocol leaves them. */
    ghost predicate Valid()
      reads this, db, storage
    {
      Synced() && Now().requests == map[]
    }

    ghost function Now(): State
      reads this
      requires IsRun(states, actions)
    {
      states[|actions|]
    }

    ghost predicate Busy(phase: Phase, rec: FileRecord)
      reads this
      requires IsRun(states, actions)
    {
      Now().requests.Keys == {0} && UploadIn(Now(), 0, phase) && Now().requests[0].up.rec == rec
    }

    constructor (config: Config)
      requires MIN_INT64 <= config.maxContentLength <= MAX_INT64
      ensures Valid() && fresh(db) && fresh(storage) && this.config == config
      ensures db.tables == Tables(map[], map[]) && storage.files == map[]
    {
      this.config := config;
      db := new Database();
      storage := new FsStorage();
      states, actions := [INITIAL], [];
    }

    ghost method Perform(a: Action)
      requires IsRun(states, actions) && Enabled(Now(), a)
      modifies this`states, this`actions
      ensures IsRun(states, actions) && Now() == Next(old(Now()), a)
    {
      states, actions := states + [Next(Now(), a)], actions + [a];
    }

    /** Drops an upload: the blob, then the row, then its tags; a failure is left behind, and never shows. */
    method Discard(rec: FileRecord, env: UploadEnv)
      requires Synced() && Busy(DropBlob, rec)
      modifies this`states, this`actions, db, storage
      ensures Valid() && Synced()
      ensures storage.files == if env.removeFails then old(storage.files) else old(storage.files) - {rec.storageKey}
      ensures db.tables == old(db.tables).Abort(rec.slug, env.abort)
    {
      hide Enabled, Inv;
      storage.RemoveFile(rec.storageKey, env.removeFails);
      EnabledUpload(Now(), DiscardBlob(0, !env.removeFails));
      Perform(DiscardBlob(0, !env.removeFails));
      var _ := db.AbortUpload(rec.slug, env.abort);
      EnabledUpload(Now(), DiscardRow(0, CallWorks(env.abort, 0)));
      Perform(DiscardRow(0, CallWorks(env.abort, 0)));
      if CallWorks(env.abort, 0) {
        EnabledUpload(Now(), DiscardTags(0, CallWorks(env.abort, 1)));
        Perform(DiscardTags(0, CallWorks(env.abort, 1)));
      }
      EnabledUpload(Now(), Stop(0));
      Perform(Stop(0));
    }

    /**
     Checks the permissions that are known before the body is read, and reserves a row. A refusal has
     changed nothing.
     */
    method Begin(req: UploadRequest, env: UploadEnv) returns (r: Result<(FileRecord, Option<FileRecord>), Reason>)
      requires Valid() && IsDraws(env.draws)
      modifies this`states, this`actions, db
      ensures Synced()
      ensures r.Success? <==> Admitted(old(db.tables), req, env, config)
      ensures r.Failure? ==> Valid() && db.tables == old(db.tables)
      ensures r.Failure? ==> RefusalCause(r.error, old(db.tables), req, env, config)
      ensures r.Success? ==>
                var (rec, replaced) := r.value;
                && IsSlug(rec.slug) && rec.slug !in old(db.tables).files
                && rec == FileRecord(rec.slug, req.name, StorageKeyForSlug(rec.slug), 0, "", req.mimeType, false, true)
                && IsSuperseded(old(db.tables), req.name, replaced, config.appendOnly)
                && db.tables == old(db.tables).Insert(rec)
                && Busy(Streaming, rec) && Now().requests[0].up == Upload(rec, Streaming, [], [], replaced)
                && FileCreate in req.perms && !config.readOnly && (replaced.Some? ==> FileDelete in req.perms)
    {
      hide Inv, Next, IsRun;
      if FileCreate !in req.perms {
        return Failure(Forbidden(FileCreate));
      }
      if config.readOnly {
        return Failure(ReadOnlyInstance);
      }
      if !config.appendOnly {
        var existing := db.FindLiveRecordByName(req.name, env.lookupWorks);
        if existing.Failure? {
          return Failure(DatabaseFailed);
        }
        if existing.value.Some? && FileDelete !in req.perms {
          return Failure(Forbidden(FileDelete));
        }
      }
      var reserved := db.ReserveUpload(req.name, req.mimeType, config.appendOnly, env.draws, env.reserve);
      if reserved.Failure? {
        return Failure(DatabaseFailed);
      }
      PerformReserve(reserved.value.0, reserved.value.1);
      return Success(reserved.value);
    }

    ghost method PerformReserve(rec: FileRecord, replaced: Option<FileRecord>)
      requires IsRun(states, actions) && Now().requests == map[]
      requires Enabled(Now(), Reserve(0, rec, replaced, config.appendOnly))
      modifies this`states, this`actions
      ensures IsRun(states, actions) && Busy(Streaming, rec) && Now().requests[0].up == Upload(rec, Streaming, [], [], replaced)
      ensures Now().stores == old(Now()).stores.WithTables(old(Now()).stores.tables.Insert(rec))
    {
      Perform(Reserve(0, rec, replaced, config.appendOnly));
    }

    /** Streams the body into the store; on failure the upload is discarded. */
    method StoreBody(rec: FileRecord, body: Source, env: UploadEnv) returns (r: Result<int, Reason>)
      requires Synced() && Busy(Streaming, rec) && Now().requests[0].up.streamed == []
      modifies this`states, this`actions, db, storage, body
      ensures Synced()
      ensures r.Failure? ==> Valid() && db.tables == old(db.tables).Abort(rec.slug, env.abort)
      ensures storage.files - {rec.storageKey} == old(storage.files) - {rec.storageKey}
      ensures r.Failure? && !env.removeFails ==> rec.storageKey !in storage.files
      ensures r == Failure(OversizedBody) ==> !Fits(|old(body.Rest())|, config.maxContentLength)
      ensures r.Success? <==> FsStores(|old(body.Rest())|, body.fails, config.maxContentLength, env.put)
      ensures env.put == NO_FS_FAULTS && !body.fails && r.Failure? ==> r.error == OversizedBody
      ensures r.Success? ==>
                && r.value == |old(body.Rest())|
                && db.tables == old(db.tables)
                && storage.files == old(storage.files)[rec.storageKey := old(body.Rest())]
                && Busy(Stored, rec)
                && Now().requests[0].up == old(Now()).requests[0].up.(phase := Stored, streamed := old(body.Rest()))
      ensures r.Failure? ==> r.error == OversizedBody || r.error == StorageFailed
    {
      hide Enabled, Next, IsRun;
      ghost var stream := body.Rest();
      var put := storage.Put(rec.storageKey, body, config.maxContentLength, env.put);
      PerformPut(rec, stream, put.Success?);
      if put.Failure? {
        Discard(rec, env);
        return Failure(if put.error == BlobTooLarge then OversizedBody else StorageFailed);
      }
      return Success(put.value);
    }

    ghost method PerformPut(rec: FileRecord, stream: Bytes, ok: bool)
      requires IsRun(states, actions) && Busy(Streaming, rec) && Now().requests[0].up.streamed == []
      requires storage.files - {rec.storageKey} == Now().stores.blobs - {rec.storageKey}
      requires ok ==> storage.files == Now().stores.blobs[rec.storageKey := stream]
      modifies this`states, this`actions
      ensures IsRun(states, actions)
      ensures Now().stores.tables == old(Now()).stores.tables && Now().stores.blobs == storage.files
      ensures Now().requests ==
              map[0 := Uploading(old(Now()).requests[0].up.(phase := if ok then Stored else DropBlob, streamed := stream))]
    {
      ghost var leftover := if rec.storageKey in storage.files then Some(storage.files[rec.storageKey]) else None;
      LeftoverIs(Now().stores.blobs, storage.files, rec.storageKey);
      Perform(PutChunk(0, stream, false));
      assert [] + stream == stream;
      Perform(if ok then PutDone(0) else PutFailed(0, leftover));
      assert Now().requests.Keys == {0};
    }

    /** The permissions an upload's tags need: first adding any, then taking any off a file that has them. */
    method UploadTagPermissions(ts: seq<Tag>, replaced: Option<FileRecord>, failAt: Option<nat>)
      returns (r: Result<seq<Permission>, Reason>)
      requires db.Valid()
      ensures r.Success? <==> LookupsWork(db.tables, failAt, ts, replaced)
      ensures r.Failure? ==> r.error == DatabaseFailed
      ensures r.Success? ==>
                forall p :: p in r.value <==>
                              || (p == TagAdd && ts != [])
                              || (p == TagRemove && NeedsTagRemove(db.tables, ts, SlugOf(replaced)))
      ensures r.Success? && ts != [] ==> [TagAdd] <= r.value
    {
      var required := if ts != [] then [TagAdd] else [];
      var owners := db.TagsOwnedByAnotherFile(ts, "", failAt);
      if owners.Failure? {
        return Failure(DatabaseFailed);
      }
      var needsRemove := owners.value != [];
      assert needsRemove <==> exists g :: g in ts && g in db.tables.tags by {
        if g :| g in ts && g in db.tables.tags {
          assert IsSlug(db.tables.tags[g]);
          assert db.tables.tags[g] in owners.value;
        }
        if needsRemove {
          assert owners.value[0] in owners.value;
        }
      }
      if !needsRemove && replaced.Some? {
        if !CallWorks(failAt, |ts|) {
          return Failure(DatabaseFailed);
        }
        needsRemove := db.tables.TagsOf(replaced.value.slug) != {};
      }
      if needsRemove {
        required := required + [TagRemove];
      }
      return Success(required);
    }

    /** Reads the late tags, parses them all and checks what they cost. */
    method DecideTags(replaced: Option<FileRecord>, req: UploadRequest, env: UploadEnv) returns (r: Result<seq<Tag>, Reason>)
      requires db.Valid()
      ensures r.Failure? ==> TagCause(r.error, db.tables, req, env, replaced)
      ensures r.Success? ==> TagsPass(db.tables, req, env, replaced, r.value)
      ensures r.Failure? ==> forall ts :: !TagsPass(db.tables, req, env, replaced, ts)
    {
      hide ParseTag, ValidTag, Dedup, ParsedAs, FirstFailure, NeedsTagRemove, LookupsWork;
      if req.lateTags.None? {
        NoTagsPass(db.tables, req, env, replaced);
        return Failure(BrokenForm);
      }
      var parsed := ParseTagList(req.earlyTags + req.lateTags.value);
      if parsed.Failure? {
        NoTagsPass(db.tables, req, env, replaced);
        return Failure(BadTag(parsed.error));
      }
      var ts := parsed.value;
      assert IsTagsOf(req, ts);
      var tagPerms := UploadTagPermissions(ts, replaced, env.perms);
      if tagPerms.Failure? {
        TagsFail(db.tables, req, env, replaced, ts);
        return Failure(DatabaseFailed);
      }
      var missing := FirstMissingPermission(tagPerms.value, req.perms);
      if missing.Some? {
        assert FirstForbidden(db.tables, ts, replaced, req.perms, missing.value);
        TagsFail(db.tables, req, env, replaced, ts);
        return Failure(Forbidden(missing.value));
      }
      return Success(ts);
    }

    /** Clears the upload to go live, or discards it. */
    method Authorize(rec: FileRecord, replaced: Option<FileRecord>, req: UploadRequest, env: UploadEnv)
      returns (r: Result<seq<Tag>, Reason>)
      requires Synced() && Busy(Stored, rec)
      modifies this`states, this`actions, db, storage
      ensures Synced()
      ensures r.Failure? ==> Valid() && db.tables == old(db.tables).Abort(rec.slug, env.abort)
      ensures r.Failure? ==>
                storage.files == if env.removeFails then old(storage.files) else old(storage.files) - {rec.storageKey}
      ensures r.Failure? ==> TagCause(r.error, old(db.tables), req, env, replaced)
      ensures r.Failure? ==> forall ts :: !TagsPass(old(db.tables), req, env, replaced, ts)
      ensures r.Success? ==>
                && db.tables == old(db.tables) && storage.files == old(storage.files)
                && TagsPass(old(db.tables), req, env, replaced, r.value)
                && Busy(Cleared, rec)
                && Now().requests[0].up == old(Now()).requests[0].up.(phase := Cleared, ts := r.value)
    {
      hide *;
      assert db.Valid() by {
        ValidDatabase();
      }
      r := DecideTags(replaced, req, env);
      if r.Failure? {
        PerformReject(rec);
        Discard(rec, env);
      } else {
        PerformClear(rec, r.value);
      }
    }

    lemma ValidDatabase()
      requires Synced()
      ensures db.Valid() && IsRun(states, actions) && MIN_INT64 <= config.maxContentLength <= MAX_INT64
      ensures Now().stores.tables == db.tables && Now().stores.blobs == storage.files
    {
    }

    ghost method PerformReject(rec: FileRecord)
      requires Synced() && Busy(Stored, rec)
      modifies this`states, this`actions
      ensures Synced() && Busy(DropBlob, rec)
    {
      Perform(Reject(0));
    }

    ghost method PerformClear(rec: FileRecord, ts: seq<Tag>)
      requires Synced() && Busy(Stored, rec)
      modifies this`states, this`actions
      ensures Synced() && Busy(Cleared, rec)
      ensures Now().requests[0].up == old(Now()).requests[0].up.(phase := Cleared, ts := ts)
    {
      Perform(Clear(0, ts));
    }

    /**
     The part of an upload after which there is no clean way back: the row goes live, then one
     transaction moves the tags and retires the superseded file, then that file's blob is reclaimed.
     */
    method Publish(rec: FileRecord, size: int, ts: seq<Tag>, replaced: Option<FileRecord>, env: UploadEnv)
      returns (out: UploadOutcome)
      requires Synced() && Busy(Cleared, rec) && rec.slug in db.tables.files
      requires var up := Now().requests[0].up; |up.streamed| == size && up.ts == ts && up.replaced == replaced
      modifies this`states, this`actions, db, storage
      ensures Valid()
      ensures out.Broken? || out.Uploaded?
      ensures PublishOutcome(old(db.tables), db.tables, rec, size, ts, replaced, env, out)
      ensures storage.files == if out.Uploaded? && replaced.Some? && !env.removeFails
                               then old(storage.files) - {replaced.value.storageKey} else old(storage.files)
    {
      FinalizeKeepsRow(db.tables, rec.slug, size, env.now);
      hide Inv, Enabled, Next, IsRun, IsUploadAction, Tables.Finalize, Tables.ApplyUpload, Tables.WellFormed, PublishOutcome, CallWorks;
      PublishOutcomes(db.tables, rec, size, ts, replaced, env);
      var finalized := db.FinalizeUpload(rec.slug, size, env.now, env.finalize);
      PerformFinalize(rec, env.now, CallWorks(env.finalize, 0), finalized.Success?);
      if finalized.Failure? {
        PerformStop();
        return Broken(CallWorks(env.finalize, 0), false, replaced);
      }
      var ok := db.ApplyUploadTags(rec.slug, ts, SlugOf(replaced), env.apply);
      PerformRetag(rec, ok);
      if !ok {
        PerformStop();
        return Broken(true, false, replaced);
      }
      if !env.listWorks {
        PerformStop();
        return Broken(true, true, replaced);
      }
      var tags := db.tables.TagsOf(rec.slug);
      if replaced.Some? {
        storage.RemoveFile(replaced.value.storageKey, env.removeFails);
      }
      PerformReclaim(rec, !env.removeFails);
      PerformStop();
      return Uploaded(finalized.value, tags, replaced);
    }

    ghost method PerformFinalize(rec: FileRecord, modified: string, updated: bool, readBack: bool)
      requires IsRun(states, actions) && Busy(Cleared, rec)
      modifies this`states, this`actions
      ensures IsRun(states, actions) && Now().requests.Keys == {0}
      ensures var up := old(Now()).requests[0].up;
              && Now().requests[0] == Uploading(up.(phase := if updated && readBack then WentLive else Stuck))
              && Now().stores.blobs == old(Now()).stores.blobs
              && Now().stores.tables == if updated then old(Now()).stores.tables.Finalize(rec.slug, |up.streamed|, modified)
                                        else old(Now()).stores.tables
    {
      Perform(Action.Finalize(0, modified, updated, readBack));
    }

    ghost method PerformRetag(rec: FileRecord, works: bool)
      requires IsRun(states, actions) && Busy(WentLive, rec)
      modifies this`states, this`actions
      ensures IsRun(states, actions) && Now().requests.Keys == {0}
      ensures var up := old(Now()).requests[0].up;
              && Now().requests[0] == Uploading(up.(phase := if works then Retagged else Stuck))
              && Now().stores.blobs == old(Now()).stores.blobs
              && Now().stores.tables == if works then old(Now()).stores.tables.ApplyUpload(rec.slug, up.ts, SlugOf(up.replaced))
                                        else old(Now()).stores.tables
    {
      Perform(Retag(0, works));
    }

    ghost method PerformReclaim(rec: FileRecord, works: bool)
      requires IsRun(states, actions) && Busy(Retagged, rec)
      modifies this`states, this`actions
      ensures IsRun(states, actions) && Now().requests.Keys == {0} && Now().stores.tables == old(Now()).stores.tables
      ensures var up := old(Now()).requests[0].up;
              Now().stores.blobs == if up.replaced.Some? && works then old(Now()).stores.blobs - {up.replaced.value.storageKey}
                                    else old(Now()).stores.blobs
    {
      Perform(Reclaim(0, works));
    }

    ghost method PerformStop()
      requires IsRun(states, actions) && Now().requests.Keys == {0}
      modifies this`states, this`actions
      ensures IsRun(states, actions) && Now().requests == map[] && Now().stores == old(Now()).stores
    {
      Perform(Stop(0));
    }

    /** Stores the body of a reserved upload and settles what its tags cost, or discards it. */
    method Fill(rec: FileRecord, replaced: Option<FileRecord>, req: UploadRequest, env: UploadEnv)
      returns (r: Result<seq<Tag>, Reason>, size: int)
      requires Synced() && Busy(Streaming, rec) && Now().requests[0].up == Upload(rec, Streaming, [], [], replaced)
      modifies this`states, this`actions, db, storage, req.body
      ensures Synced()
      ensures r.Failure? ==> Valid() && db.tables == old(db.tables).Abort(rec.slug, env.abort)
      ensures r.Failure? ==> FillCause(r.error, old(db.tables), req, env, |old(req.body.Rest())|, config, replaced)
      ensures r.Failure? ==> !Fills(old(db.tables), req, env, |old(req.body.Rest())|, config, replaced)
      ensures r.Failure? ==> OnlyBlobOf(rec.storageKey, old(storage.files), storage.files, env.removeFails)
      ensures r.Success? ==>
                && db.tables == old(db.tables) && size == |old(req.body.Rest())|
                && FsStores(size, req.body.fails, config.maxContentLength, env.put)
                && TagsPass(old(db.tables), req, env, replaced, r.value)
                && storage.files == old(storage.files)[rec.storageKey := old(req.body.Rest())]
                && Busy(Cleared, rec) && Now().requests[0].up == Upload(rec, Cleared, old(req.body.Rest()), r.value, replaced)
    {
      hide *;
      size := 0;
      ghost var stream, files := req.body.Rest(), storage.files;
      ghost var length := |stream|;
      var stored := StoreBody(rec, req.body, env);
      ghost var t := old(db.tables);
      if stored.Failure? {
        NotFilled(t, req, env, length, config, replaced);
        FillCauses(stored.error, t, req, env, length, config, replaced);
        OnlyBlob(rec.storageKey, files, storage.files, env.removeFails);
        return Failure(stored.error), size;
      }
      size := stored.value;
      r := Authorize(rec, replaced, req, env);
      if r.Failure? {
        NotFilled(t, req, env, length, config, replaced);
        FillCauses(r.error, t, req, env, length, config, replaced);
        OnlyBlobWritten(rec.storageKey, files, stream, env.removeFails);
      }
    }

    /** Everything before the point of no return: what fails here has changed nothing a client can see. */
    method Prepare(req: UploadRequest, env: UploadEnv)
      returns (failure: Option<UploadOutcome>, rec: FileRecord, ts: seq<Tag>, replaced: Option<FileRecord>, size: int)
      requires Valid() && IsDraws(env.draws)
      modifies this`states, this`actions, db, storage, req.body
      ensures Synced()
      ensures failure.Some? ==> Valid() && UploadContract(old(db.tables), db.tables, req, env, |old(req.body.Rest())|, config, failure.value, rec, ts)
      ensures failure.Some? ==> failure.value.Refused? || failure.value.Abandoned?
      ensures failure.Some? && failure.value.Refused? ==> storage.files == old(storage.files)
      ensures failure.Some? && failure.value.Abandoned? ==>
                rec.slug !in old(db.tables).files && OnlyBlobOf(rec.storageKey, old(storage.files), storage.files, env.removeFails)
      ensures failure.None? ==>
                && Prepared(old(db.tables), db.tables, req, env, size, rec, ts, replaced, config) && size == |old(req.body.Rest())|
                && storage.files == old(storage.files)[rec.storageKey := old(req.body.Rest())]
                && Busy(Cleared, rec) && Now().requests[0].up == Upload(rec, Cleared, old(req.body.Rest()), ts, replaced)
    {
      assert db.tables.WellFormed();
      hide *;
      rec, ts, replaced, size := FileRecord("", "", "", 0, "", "", false, true), [], None, 0;
      ghost var t := db.tables;
      ghost var length := |req.body.Rest()|;
      var begun := Begin(req, env);
      if begun.Failure? {
        RefusedContract(t, req, env, length, config, begun.error, rec, ts);
        return Some(Refused(begun.error)), rec, ts, replaced, size;
      }
      rec, replaced := begun.value.0, begun.value.1;
      var filled;
      filled, size := Fill(rec, replaced, req, env);
      SameDemands(t, rec, req, env, replaced);
      if filled.Failure? {
        AbortedIsUntouched(t, rec, env.abort);
        NotFilledBefore(t, rec, req, env, length, config, replaced, filled.error);
        AbandonedContract(t, db.tables, req, env, length, config, filled.error, rec, ts, replaced);
        return Some(Abandoned(filled.error)), rec, ts, replaced, size;
      }
      ts := filled.value;
      PreparedFacts(t, req, env, size, rec, ts, replaced, config);
      failure := None;
    }

    /**
     The upload handler. file is the final record of the upload, when it got that far, and ts its tags.
     The contract says what each outcome has changed and which permissions it took.
     */
    method UploadFile(req: UploadRequest, env: UploadEnv)
      returns (out: UploadOutcome, ghost file: FileRecord, ghost ts: seq<Tag>)
      requires Valid() && IsDraws(env.draws)
      modifies this`states, this`actions, db, storage, req.body
      ensures Valid()
      ensures UploadContract(old(db.tables), db.tables, req, env, |old(req.body.Rest())|, config, out, file, ts)
      ensures out.Refused? ==> storage.files == old(storage.files)
      ensures out.Abandoned? ==>
                file.slug !in old(db.tables).files && OnlyBlobOf(file.storageKey, old(storage.files), storage.files, env.removeFails)
      ensures out.Broken? ==> storage.files == old(storage.files)[file.storageKey := old(req.body.Rest())]
      ensures out.Uploaded? ==>
                storage.files == if out.replaced.Some? && !env.removeFails
                                 then old(storage.files)[file.storageKey := old(req.body.Rest())] - {out.replaced.value.storageKey}
                                 else old(storage.files)[file.storageKey := old(req.body.Rest())]
      ensures out.Uploaded? && out.replaced.Some? ==> out.replaced.value.storageKey != file.storageKey
    {
      assert db.tables.WellFormed();
      hide *;
      ghost var t := db.tables;
      var failure, rec, tags, replaced, size := Prepare(req, env);
      file, ts := rec, tags;
      if failure.Some? {
        return failure.value, file, ts;
      }
      file := rec.(size := size, modified := env.now, pending := false);
      PublishedTables(t, db.tables, req, env, size, rec, tags, replaced, config);
      out := Publish(rec, size, tags, replaced, env);
      PublishedContract(t, db.tables, req, env, size, rec, tags, replaced, config, out);
    }

    /** Whether tags may be attached to a file: which ones, and what that costs, or why not. */
    method DecideAdd(perms: set<Permission>, slug: Slug, raw: seq<string>, liveWorks: bool, owners: Option<nat>)
      returns (r: Result<seq<Tag>, Reason>)
      requires db.Valid()
      ensures r.Success? <==>
              exists asked :: AddDecided(db.tables, perms, slug, raw, liveWorks, owners, config.readOnly, asked)
                              && (TakesFromOthers(db.tables, asked, slug) ==> TagRemove in perms)
      ensures r.Success? ==>
                && AddDecided(db.tables, perms, slug, raw, liveWorks, owners, config.readOnly, r.value)
                && (TakesFromOthers(db.tables, r.value, slug) ==> TagRemove in perms)
                && forall t :: t in r.value ==> ValidTag(t)
      ensures r == Failure(Forbidden(TagRemove)) <==>
              exists asked :: AddDecided(db.tables, perms, slug, raw, liveWorks, owners, config.readOnly, asked)
                              && TakesFromOthers(db.tables, asked, slug) && TagRemove !in perms
      ensures r.Failure? ==> AddRefusal(r.error, db.tables, perms, slug, raw, liveWorks, owners, config.readOnly)
    {
      hide ParseTag, ValidTag, ParsesTo, FirstFailure;
      if TagAdd !in perms {
        return Failure(Forbidden(TagAdd));
      }
      if config.readOnly {
        return Failure(ReadOnlyInstance);
      }
      ParsesToOne(raw);
      var parsed := ParseTagList(raw);
      if parsed.Failure? {
        return Failure(BadTag(parsed.error));
      }
      var ts := parsed.value;
      if ts == [] {
        return Failure(NoTags);
      }
      assert ParsesTo(raw, ts) && ts != [];
      if !liveWorks {
        return Failure(DatabaseFailed);
      }
      if !db.tables.IsLive(slug) {
        return Failure(NoSuchFile);
      }
      var others := db.TagsOwnedByAnotherFile(ts, slug, owners);
      if others.Failure? {
        return Failure(DatabaseFailed);
      }
      OwnersMeanTaking(db.tables, ts, slug, others.value);
      assert AddDecided(db.tables, perms, slug, raw, liveWorks, owners, config.readOnly, ts);
      if others.value != [] && TagRemove !in perms {
        return Failure(Forbidden(TagRemove));
      }
      return Success(ts);
    }

    /**
     The handler that attaches tags to a file; listing and moved map as they are answered. It refuses for want
     of tag:remove exactly when everything else is in order and one of the requested tags is on another file.
     */
    method AddFileTags(perms: set<Permission>, slug: Slug, raw: seq<string>, liveWorks: bool, owners: Option<nat>, add: Option<nat>)
      returns (r: Result<(set<Tag>, map<string, Slug>), Reason>, ghost ts: seq<Tag>)
      requires Valid()
      modifies this`states, this`actions, db
      ensures Valid()
      ensures r.Failure? ==> db.tables == old(db.tables)
      ensures r == Failure(Forbidden(TagRemove)) <==>
              exists asked :: AddDecided(old(db.tables), perms, slug, raw, liveWorks, owners, config.readOnly, asked)
                              && TakesFromOthers(old(db.tables), asked, slug) && TagRemove !in perms
      ensures r.Success? <==>
              exists asked :: AddDecided(old(db.tables), perms, slug, raw, liveWorks, owners, config.readOnly, asked)
                              && (TakesFromOthers(old(db.tables), asked, slug) ==> TagRemove in perms)
                              && CallWorks(add, 2 + 2 * |asked|)
      ensures r.Failure? ==>
                || AddRefusal(r.error, old(db.tables), perms, slug, raw, liveWorks, owners, config.readOnly)
                || (r.error == DatabaseFailed && AddDecided(old(db.tables), perms, slug, raw, liveWorks, owners, config.readOnly, ts)
                    && !CallWorks(add, 2 + 2 * |ts|))
      ensures r.Success? ==>
                && AddDecided(old(db.tables), perms, slug, raw, liveWorks, owners, config.readOnly, ts)
                && (TakesFromOthers(old(db.tables), ts, slug) ==> TagRemove in perms)
                && db.tables == old(db.tables).Assign(ts, slug)
                && r.value.0 == db.tables.TagsOf(slug)
                && MovedExactly(r.value.1, old(db.tables).tags, db.tables.tags, ts)
    {
      hide Inv, ValidTag, AddDecided, TakesFromOthers, MovedExactly, Tables.Assign, IsRun, Next, Enabled, Tables.WellFormed;
      ts := [];
      OneAddDecided(db.tables, perms, slug, raw, liveWorks, owners, config.readOnly);
      var decided := DecideAdd(perms, slug, raw, liveWorks, owners);
      if decided.Failure? {
        return Failure(decided.error), ts;
      }
      ts := decided.value;
      var added := db.AddTagsToSlug(slug, decided.value, add);
      PerformTagging(slug, ts, added.Success?);
      if added.Failure? {
        return Failure(DatabaseFailed), ts;
      }
      return Success(added.value), ts;
    }

    ghost method PerformTagging(slug: Slug, ts: seq<Tag>, works: bool)
      requires IsRun(states, actions) && Now().requests == map[] && Now().stores.tables.IsLive(slug)
      modifies this`states, this`actions
      ensures IsRun(states, actions) && Now().requests == map[] && Now().stores.blobs == old(Now()).stores.blobs
      ensures Now().stores.tables == if works then old(Now()).stores.tables.Assign(ts, slug) else old(Now()).stores.tables
    {
      Perform(CheckTaggable(0, slug, ts));
      Perform(AttachTags(0, works));
    }

    /** The handler that detaches one tag; an error while listing the rest comes after the change. */
    method RemoveFileTag(perms: set<Permission>, slug: Slug, raw: string, works: bool, listWorks: bool)
      returns (r: Result<set<Tag>, Reason>)
      requires Valid()
      modifies this`states, this`actions, db
      ensures Valid()
      ensures r.Success? <==>
              && TagRemove in perms && !config.readOnly && works && listWorks
              && ParseTag(raw).Success? && ParseTag(raw).value in old(db.tables).TagsOf(slug)
      ensures r.Success? ==>
                && ParseTag(raw).Success?
                && var tag := ParseTag(raw).value;
                   && tag in old(db.tables).tags && old(db.tables).tags[tag] == slug
                   && db.tables == old(db.tables).DropTag(slug, tag) && r.value == db.tables.TagsOf(slug)
      ensures r.Failure? ==> RemoveTagFailure(r.error, old(db.tables), perms, slug, raw, config.readOnly, works, listWorks)
      ensures db.tables ==
              if TagRemove in perms && !config.readOnly && ParseTag(raw).Success? && works
              then old(db.tables).DropTag(slug, ParseTag(raw).value) else old(db.tables)
    {
      hide ParseTag, Inv;
      if TagRemove !in perms {
        return Failure(Forbidden(TagRemove));
      }
      if config.readOnly {
        return Failure(ReadOnlyInstance);
      }
      var parsed := ParseTag(raw);
      if parsed.Failure? {
        return Failure(BadTag(parsed.error));
      }
      var removed := db.RemoveTagFromSlug(slug, parsed.value, works);
      if removed.Failure? {
        return Failure(DatabaseFailed);
      }
      Perform(DetachTag(slug, parsed.value));
      if !removed.value {
        return Failure(NotAttached);
      }
      if !listWorks {
        return Failure(DatabaseFailed);
      }
      return Success(db.tables.TagsOf(slug));
    }

    /** The deletion handler: the row first, then the blob, whose removal must succeed for a good answer. */
    method DeleteFile(perms: set<Permission>, slug: Slug, failAt: Option<nat>, removeFails: bool) returns (r: Result<(), Reason>)
      requires Valid()
      modifies this`states, this`actions, db, storage
      ensures Valid()
      ensures r.Success? <==>
              && FileDelete in perms && !config.readOnly && !config.appendOnly
              && old(db.tables).IsLive(slug) && CallWorks(failAt, 4) && !removeFails
      ensures r.Failure? ==> DeleteFailure(r.error, old(db.tables), perms, slug, config, failAt, removeFails)
      ensures db.tables == if r.Success? || r.error == StorageFailed then old(db.tables).SoftDelete(slug) else old(db.tables)
      ensures storage.files == if r.Success? then old(storage.files) - {old(db.tables).files[slug].storageKey} else old(storage.files)
    {
      hide Inv;
      if FileDelete !in perms {
        return Failure(Forbidden(FileDelete));
      }
      if config.readOnly {
        return Failure(ReadOnlyInstance);
      }
      if config.appendOnly {
        return Failure(AppendOnlyInstance);
      }
      var deleted := db.SoftDeleteBySlug(slug, failAt);
      if deleted.Failure? {
        return Failure(DatabaseFailed);
      }
      if deleted.value.None? {
        return Failure(NoSuchFile);
      }
      var rec := deleted.value.value;
      storage.RemoveFile(rec.storageKey, removeFails);
      PerformDelete(slug, !removeFails);
      if removeFails {
        return Failure(StorageFailed);
      }
      return Success(());
    }

    ghost method PerformDelete(slug: Slug, works: bool)
      requires IsRun(states, actions) && Now().requests == map[] && Now().stores.tables.IsLive(slug)
      modifies this`states, this`actions
      ensures IsRun(states, actions) && Now().requests == map[]
      ensures Now().stores.tables == old(Now()).stores.tables.SoftDelete(slug)
      ensures Now().stores.blobs ==
              if works then old(Now()).stores.blobs - {old(Now()).stores.tables.files[slug].storageKey} else old(Now()).stores.blobs
    {
      Perform(Action.SoftDelete(0, slug));
      Perform(RemoveBlob(0, works));
    }

    /**
     Streams the blob of a record that was resolved while live; the store may fail to open it. A blob that
     is missing would be answered as a missing file, but between requests a live file always has its bytes.
     */
    method ServeFileRecord(rec: FileRecord, openWorks: bool) returns (r: Result<Bytes, Reason>)
      requires Valid() && db.tables.IsLive(rec.slug) && db.tables.files[rec.slug] == rec
      modifies this`states, this`actions
      ensures Valid()
      ensures r == if openWorks && rec.storageKey in storage.files then Success(storage.files[rec.storageKey]) else Failure(StorageFailed)
      ensures r.Success? <==> openWorks
      ensures r.Success? ==> |r.value| == rec.size && Now().served == old(Now()).served + [(rec.slug, r.value)]
      ensures r.Failure? ==> Now().served == old(Now()).served
    {
      LiveHasBlob(rec.slug);
      Perform(Resolve(0, rec.slug, None));
      if !openWorks {
        Perform(Stop(0));
        return Failure(StorageFailed);
      }
      Perform(OpenBlob(0));
      return Success(storage.files[rec.storageKey]);
    }

    /** The short link handler. With working calls a link answers exactly when its file is live. */
    method ServeSlug(slug: Slug, lookupWorks: bool, openWorks: bool) returns (r: Result<Bytes, Reason>)
      requires Valid()
      modifies this`states, this`actions
      ensures Valid()
      ensures r.Success? <==> lookupWorks && openWorks && db.tables.IsLive(slug)
      ensures r == Failure(NoSuchFile) <==> lookupWorks && !db.tables.IsLive(slug)
      ensures r.Success? ==>
                && db.tables.files[slug].storageKey in storage.files
                && r.value == storage.files[db.tables.files[slug].storageKey]
                && |r.value| == db.tables.files[slug].size
                && Now().served == old(Now()).served + [(slug, r.value)]
    {
      if !lookupWorks {
        return Failure(DatabaseFailed);
      }
      if !db.tables.IsLive(slug) {
        return Failure(NoSuchFile);
      }
      r := ServeFileRecord(db.tables.files[slug], openWorks);
    }

    lemma LiveHasBlob(slug: Slug)
      requires Valid() && db.tables.IsLive(slug)
      ensures var rec := db.tables.files[slug]; rec.storageKey in storage.files && |storage.files[rec.storageKey]| == rec.size
    {
      RunKeepsInv(states, actions, |actions|);
      assert SettledOk(Now().stores, slug);
    }

    /** The tag link handler: with working calls a tag answers with the bytes of the live file it is on. */
    method ServeTag(raw: string, lookupWorks: bool, openWorks: bool) returns (r: Result<Bytes, Reason>)
      requires Valid()
      modifies this`states, this`actions
      ensures Valid()
      ensures r.Success? <==>
              lookupWorks && openWorks && ParseTag(raw).Success? && VisibleOf(db.tables).ByTag(ParseTag(raw).value).Some?
      ensures r == Failure(NoSuchFile) <==>
              ParseTag(raw).Failure? || (lookupWorks && VisibleOf(db.tables).ByTag(ParseTag(raw).value).None?)
      ensures r.Success? ==>
                var rec := VisibleOf(db.tables).ByTag(ParseTag(raw).value).value;
                && rec.storageKey in storage.files && r.value == storage.files[rec.storageKey]
                && Now().served == old(Now()).served + [(rec.slug, r.value)]
    {
      hide ParseTag, Inv;
      var tag := ParseTag(raw);
      if tag.Failure? {
        return Failure(NoSuchFile);
      }
      LookupByTag(db.tables, tag.value);
      if !lookupWorks {
        return Failure(DatabaseFailed);
      }
      var found := db.tables.LiveRecordByTag(tag.value);
      if found.None? {
        return Failure(NoSuchFile);
      }
      r := ServeFileRecord(found.value, openWorks);
    }
  }

  /** The tags to attach are known to be asked, on a file that is live: only the permission they may cost is open. */
  ghost predicate AddDecided(t: Tables, perms: set<Permission>, slug: Slug, raw: seq<string>, liveWorks: bool,
                             owners: Option<nat>, readOnly: bool, asked: seq<Tag>)
  {
    && TagAdd in perms && !readOnly && asked != []
    && ParsesTo(raw, asked)
    && liveWorks && t.IsLive(slug) && CallWorks(owners, |asked| - 1)
  }

  lemma OneAddDecided(t: Tables, perms: set<Permission>, slug: Slug, raw: seq<string>, liveWorks: bool, owners: Option<nat>,
                      readOnly: bool)
    ensures forall a, b | AddDecided(t, perms, slug, raw, liveWorks, owners, readOnly, a)
                          && AddDecided(t, perms, slug, raw, liveWorks, owners, readOnly, b) :: a == b
    ensures forall a | AddDecided(t, perms, slug, raw, liveWorks, owners, readOnly, a) :: t.IsLive(slug) && slug in t.files
  {
    ParsesToOne(raw);
    hide ParsesTo;
  }

  /** The one reason for which attaching tags is refused: the first check that fails. */
  ghost predicate AddRefusal(reason: Reason, t: Tables, perms: set<Permission>, slug: Slug, raw: seq<string>, liveWorks: bool,
                             owners: Option<nat>, readOnly: bool)
  {
    match reason
    case Forbidden(p) =>
      if TagAdd !in perms then p == TagAdd
      else p == TagRemove && TagRemove !in perms
           && exists asked :: AddDecided(t, perms, slug, raw, liveWorks, owners, readOnly, asked) && TakesFromOthers(t, asked, slug)
    case ReadOnlyInstance => TagAdd in perms && readOnly
    case BadTag(error) => TagAdd in perms && !readOnly && FirstError(raw, error)
    case NoTags => TagAdd in perms && !readOnly && raw == []
    case NoSuchFile =>
      TagAdd in perms && !readOnly && (exists asked :: ParsesTo(raw, asked) && asked != []) && liveWorks && !t.IsLive(slug)
    case DatabaseFailed =>
      && TagAdd in perms && !readOnly
      && (exists asked :: ParsesTo(raw, asked) && asked != []
                          && (!liveWorks || (t.IsLive(slug) && !CallWorks(owners, |asked| - 1))))
    case _ => false
  }

  /** The one reason for which detaching a tag fails. */
  ghost predicate RemoveTagFailure(reason: Reason, t: Tables, perms: set<Permission>, slug: Slug, raw: string, readOnly: bool,
                                   works: bool, listWorks: bool)
  {
    match reason
    case Forbidden(p) => p == TagRemove && TagRemove !in perms
    case ReadOnlyInstance => TagRemove in perms && readOnly
    case BadTag(error) => TagRemove in perms && !readOnly && ParseTag(raw) == Failure(error)
    case NotAttached =>
      TagRemove in perms && !readOnly && ParseTag(raw).Success? && works && ParseTag(raw).value !in t.TagsOf(slug)
    case DatabaseFailed =>
      && TagRemove in perms && !readOnly && ParseTag(raw).Success?
      && (!works || (ParseTag(raw).value in t.TagsOf(slug) && !listWorks))
    case _ => false
  }

  /** The one reason for which a deletion fails. */
  predicate DeleteFailure(reason: Reason, t: Tables, perms: set<Permission>, slug: Slug, config: Config,
                          failAt: Option<nat>, removeFails: bool)
  {
    match reason
    case Forbidden(p) => p == FileDelete && FileDelete !in perms
    case ReadOnlyInstance => FileDelete in perms && config.readOnly
    case AppendOnlyInstance => FileDelete in perms && !config.readOnly && config.appendOnly
    case DatabaseFailed =>
      FileDelete in perms && !config.readOnly && !config.appendOnly && !CallWorks(failAt, if t.IsLive(slug) then 4 else 1)
    case NoSuchFile =>
      FileDelete in perms && !config.readOnly && !config.appendOnly && CallWorks(failAt, 1) && !t.IsLive(slug)
    case StorageFailed =>
      FileDelete in perms && !config.readOnly && !config.appendOnly && CallWorks(failAt, 4) && t.IsLive(slug) && removeFails
    case _ => false
  }

  lemma EnabledUpload(s: State, a: Action)
    requires IsUploadAction(a) ==> 0 == a.id && 0 in s.requests && s.requests[0].Uploading? && PhaseAllows(s.requests[0].up.phase, a)
    requires a.Stop? ==> a.id in s.requests
    requires IsUploadAction(a) || a.Stop?
    ensures Enabled(s, a)
  {
  }

  // ---- An upload that leaves two live files of its name ----

  const ALL_PERMISSIONS := {FileCreate, FileDelete, TagAdd, TagRemove}

  /** One slug on the first attempt, and no more after it. */
  function OneDraw(slug: Slug): (draws: seq<Option<Slug>>)
    ensures |draws| == ATTEMPTS && draws[0] == Some(slug) && forall k | 0 < k < ATTEMPTS :: draws[k] == None
  {
    [Some(slug)] + seq(ATTEMPTS - 1, _ => None)
  }

  /** Nothing fails, except perhaps the closing transaction. */
  function QuietEnv(slug: Slug, apply: Option<nat>): UploadEnv {
    UploadEnv(OneDraw(slug), "now", true, None, NO_FS_FAULTS, None, None, apply, true, false, None)
  }

  /** An empty file without tags, from a client that may do anything, is never refused or abandoned. */
  lemma QuietUploadGoesLive(t: Tables, u: Tables, req: UploadRequest, slug: Slug, apply: Option<nat>, config: Config,
                            out: UploadOutcome, file: FileRecord, ts: seq<Tag>)
    requires t.WellFormed() && slug !in t.files && config == Config(false, false, 10)
    requires req.perms == ALL_PERMISSIONS && req.earlyTags == [] && req.lateTags == Some([]) && !req.body.fails
    requires UploadContract(t, u, req, QuietEnv(slug, apply), 0, config, out, file, ts)
    ensures (out.Broken? && out.live) || out.Uploaded?
    ensures out.Uploaded? || apply.Some?
    ensures IsFinalRecord(t, req, QuietEnv(slug, apply), 0, file)
    ensures u == (if out.Broken? && !out.applied then t.Insert(file) else UploadResult(t, file, ts, SlugOf(out.replaced)))
    ensures ts == [] && (out.replaced.Some? ==> t.IsLive(out.replaced.value.slug))
    ensures out.replaced.Some? && !CallWorks(apply, 3) ==> out.Broken? && !out.applied
  {
    hide ParseTag, IsFinalRecord, UploadResult, Untouched, DemandsForTags;
    var env := QuietEnv(slug, apply);
    assert FirstFree(env.draws, t.files, 0);
    assert Admitted(t, req, env, config);
    assert IsTagsOf(req, []) by {
      assert ParsedAs(req.earlyTags + req.lateTags.value, []);
    }
    forall replaced ensures Fills(t, req, env, 0, config, replaced) {
      assert TagsPass(t, req, env, replaced, []) by {
        forall p: Permission ensures p in ALL_PERMISSIONS {
          assert p == FileCreate || p == FileDelete || p == TagAdd || p == TagRemove;
        }
      }
    }
    if out.Broken? || out.Uploaded? {
      TagsPassMeansTags(t, req, env, out.replaced, ts);
      TagsAreDetermined(req, ts, []);
    }
  }

  method UploadEmpty(server: Server, name: string, apply: Option<nat>) returns (ghost slug: Slug)
    requires server.Valid() && server.config == Config(false, false, 10)
    requires "aaaaa" !in server.db.tables.files || "bbbbb" !in server.db.tables.files
    modifies server`states, server`actions, server.db, server.storage
    ensures server.Valid()
    ensures slug !in old(server.db.tables).files && server.db.tables.files.Keys == old(server.db.tables).files.Keys + {slug}
    ensures apply.None? || apply == Some(0) ==> server.db.tables.IsLive(slug) && server.db.tables.files[slug].displayName == name
    ensures apply == Some(0) ==> forall x | x in old(server.db.tables).files :: server.db.tables.files[x] == old(server.db.tables).files[x]
  {
    assert server.db.tables.WellFormed();
    var draw := if "aaaaa" in server.db.tables.files then "bbbbb" else "aaaaa";
    var body := new Source([], false, false);
    var req := new UploadRequest(ALL_PERMISSIONS, name, "", [], body, Some([]));
    assert IsDraws(QuietEnv(draw, apply).draws);
    assert body.Rest() == [];
    ghost var t := server.db.tables;
    hide *;
    var out, file, ts := server.UploadFile(req, QuietEnv(draw, apply));
    slug := file.slug;
    QuietUploadGoesLive(t, server.db.tables, req, draw, apply, server.config, out, file, ts);
    QuietTables(t, req, draw, apply, file, out.replaced);
  }

  lemma QuietTables(t: Tables, req: UploadRequest, draw: Slug, apply: Option<nat>, file: FileRecord, replaced: Option<FileRecord>)
    requires IsFinalRecord(t, req, QuietEnv(draw, apply), 0, file)
    requires replaced.Some? ==> t.IsLive(replaced.value.slug)
    ensures file.slug !in t.files
    ensures forall u | u == t.Insert(file) || u == UploadResult(t, file, [], SlugOf(replaced)) ::
              && u.files.Keys == t.files.Keys + {file.slug}
              && u.IsLive(file.slug) && u.files[file.slug].displayName == req.name
    ensures forall u | u == t.Insert(file) || (replaced == None && u == UploadResult(t, file, [], None)) ::
              forall x | x in t.files :: u.files[x] == t.files[x]
  {
    hide IsSlug, StorageKeyForSlug;
  }

  /**
   Two uploads of one name, one after the other; the second one's closing transaction fails. Both files
   are live in the end.
   */
  method FailedRetirementLeavesTwoLive() returns (server: Server)
    ensures server.Valid() && !NamesAreUnique(server.db.tables)
  {
    server := new Server(Config(false, false, 10));
    var first := UploadEmpty(server, "report", None);
    var second := UploadEmpty(server, "report", Some(0));
    assert server.db.tables.IsLive(first) && server.db.tables.IsLive(second) && first != second;
  }
}
