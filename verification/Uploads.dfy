/** An upload request, what may go wrong around it, and the contract of the handler, outcome by outcome. */
module Uploads {
  import opened Wrappers
  import opened Bytes
  import opened Keys
  import opened TagSyntax
  import opened Records
  import opened Catalogue
  import opened Streams
  import opened BlobStores
  import opened Races
  import opened Effects

  /** The parsed parts of an upload; lateTags are those sent after the file, None when reading them fails. */
  class UploadRequest {
    const perms: set<Permission>
    const name: string
    const mimeType: string
    const earlyTags: seq<string>
    const body: Source
    const lateTags: Option<seq<string>>

    constructor (perms: set<Permission>, name: string, mimeType: string, earlyTags: seq<string>, body: Source,
                 lateTags: Option<seq<string>>)
      ensures this.perms == perms && this.name == name && this.mimeType == mimeType
      ensures this.earlyTags == earlyTags && this.body == body && this.lateTags == lateTags
    {
      this.perms, this.name, this.mimeType := perms, name, mimeType;
      this.earlyTags, this.body, this.lateTags := earlyTags, body, lateTags;
    }
  }

  /** Which calls of the environment fail while one upload is handled, and the random draws. */
  datatype UploadEnv = UploadEnv(
    draws: seq<Option<Slug>>,
    now: string,
    lookupWorks: bool,
    reserve: Option<nat>,
    put: FsFaults,
    perms: Option<nat>,
    finalize: Option<nat>,
    apply: Option<nat>,
    listWorks: bool,
    removeFails: bool,
    abort: Option<nat>)

  datatype UploadOutcome =
    | Refused(reason: Reason)
    | Abandoned(reason: Reason)
    | Broken(live: bool, applied: bool, replaced: Option<FileRecord>)
    | Uploaded(rec: FileRecord, tags: set<Tag>, replaced: Option<FileRecord>)

  datatype Config = Config(appendOnly: bool, readOnly: bool, maxContentLength: int)

  /** ts are the request's tags, early and late, parsed and de-duplicated. */
  ghost predicate IsTagsOf(req: UploadRequest, ts: seq<Tag>) {
    && req.lateTags.Some?
    && ParsesTo(req.earlyTags + req.lateTags.value, ts)
  }

  /** The permission the tags of an upload cost. */
  ghost predicate DemandsForTags(t: Tables, ts: seq<Tag>, replaced: Option<FileRecord>, p: Permission) {
    || (p == TagAdd && ts != [])
    || (p == TagRemove && NeedsTagRemove(t, ts, SlugOf(replaced)))
  }

  /** An upload that came to nothing has touched no blob but its own, and has left none if removal works. */
  ghost predicate OnlyBlobOf(key: string, before: map<string, Bytes>, after: map<string, Bytes>, removeFails: bool) {
    after - {key} == before - {key} && (!removeFails ==> key !in after)
  }

  lemma OnlyBlob(key: string, before: map<string, Bytes>, after: map<string, Bytes>, removeFails: bool)
    requires after - {key} == before - {key} && (!removeFails ==> key !in after)
    ensures OnlyBlobOf(key, before, after, removeFails)
  {
  }

  lemma OnlyBlobWritten(key: string, before: map<string, Bytes>, bytes: Bytes, removeFails: bool)
    ensures OnlyBlobOf(key, before, if removeFails then before[key := bytes] else before[key := bytes] - {key}, removeFails)
  {
    assert before[key := bytes] - {key} == before - {key};
  }

  lemma LeftoverIs(blobs: map<string, Bytes>, files: map<string, Bytes>, key: string)
    requires files - {key} == blobs - {key}
    ensures files == if key in files then blobs[key := files[key]] else blobs - {key}
  {
    assert forall k :: k in files && k != key ==> k in files - {key};
    assert forall k :: k in blobs && k != key ==> k in blobs - {key};
  }

  ghost predicate NameTaken(t: Tables, name: string) {
    exists x :: x in t.files && t.IsLive(x) && t.files[x].displayName == name
  }

  /**
   What an upload has done, by outcome: t and u are the tables before and after, file the final record
   and ts the tags of the upload. Which outcome it is follows from the request and the calls that fail:
   refused unless admitted, abandoned unless filled, broken unless the calls of its last part work. A
   refusal names a permission that is missing and that an effect of the upload would have cost; an upload
   that went live, completely or not, held every permission its effects cost.
   */
  ghost predicate UploadContract(t: Tables, u: Tables, req: UploadRequest, env: UploadEnv, size: int, config: Config,
                                 out: UploadOutcome, file: FileRecord, ts: seq<Tag>)
  {
    match out
    case Refused(reason) =>
      u == t && !Admitted(t, req, env, config) && RefusalCause(reason, t, req, env, config)
    case Abandoned(reason) =>
      && Admitted(t, req, env, config)
      && Untouched(t, u) && IsReserved(t, req, file) && u == t.Insert(file).Abort(file.slug, env.abort)
      && (exists replaced :: IsSuperseded(t, req.name, replaced, config.appendOnly)
                             && !Fills(t, req, env, size, config, replaced) && FillCause(reason, t, req, env, size, config, replaced))
    case Broken(live, applied, replaced) =>
      && Cleared(t, req, env, size, config, ts, replaced)
      && !(FinalizeWorks(env) && ApplyWorks(env, ts, replaced) && env.listWorks)
      && live == CallWorks(env.finalize, 0) && applied == (FinalizeWorks(env) && ApplyWorks(env, ts, replaced))
      && if !live then Untouched(t, u) && IsFinalRecord(t, req, env, size, file) && u == t.Insert(Unfinished(file))
         else
           && IsFinalRecord(t, req, env, size, file)
           && u == if applied then UploadResult(t, file, ts, SlugOf(replaced)) else t.Insert(file)
    case Uploaded(rec, tags, replaced) =>
      && Cleared(t, req, env, size, config, ts, replaced)
      && FinalizeWorks(env) && ApplyWorks(env, ts, replaced) && env.listWorks
      && rec == file && IsFinalRecord(t, req, env, size, file)
      && u == UploadResult(t, file, ts, SlugOf(replaced)) && tags == u.TagsOf(file.slug)
  }

  /** The upload is let in: what is asked before the body is read is granted, and a row can be reserved. */
  ghost predicate Admitted(t: Tables, req: UploadRequest, env: UploadEnv, config: Config) {
    && FileCreate in req.perms && !config.readOnly
    && (!config.appendOnly ==> env.lookupWorks && (NameTaken(t, req.name) ==> FileDelete in req.perms))
    && ReserveWorks(t, env)
  }

  /** Reserving a row works: a free slug is drawn, and the transaction commits. */
  ghost predicate ReserveWorks(t: Tables, env: UploadEnv) {
    CallWorks(env.reserve, 2 + ATTEMPTS) && exists k :: FirstFree(env.draws, t.files, k)
  }

  /** Every lookup that deciding on the tags takes works; the last is only made when no tag is on a file. */
  ghost predicate LookupsWork(t: Tables, failAt: Option<nat>, ts: seq<Tag>, replaced: Option<FileRecord>) {
    && (ts == [] || CallWorks(failAt, |ts| - 1))
    && (replaced.Some? && (forall g :: g in ts ==> g !in t.tags) ==> CallWorks(failAt, |ts|))
  }

  /** The upload's tags, early and late, are ts; they parse, and all they cost is held. */
  ghost predicate TagsPass(t: Tables, req: UploadRequest, env: UploadEnv, replaced: Option<FileRecord>, ts: seq<Tag>) {
    && IsTagsOf(req, ts) && LookupsWork(t, env.perms, ts, replaced)
    && forall p :: DemandsForTags(t, ts, replaced, p) ==> p in req.perms
  }

  /** Everything goes well from the body to the permissions for the tags. */
  ghost predicate Fills(t: Tables, req: UploadRequest, env: UploadEnv, size: int, config: Config, replaced: Option<FileRecord>) {
    && FsStores(size, req.body.fails, config.maxContentLength, env.put)
    && exists ts :: TagsPass(t, req, env, replaced, ts)
  }

  lemma NotFilled(t: Tables, req: UploadRequest, env: UploadEnv, size: int, config: Config, replaced: Option<FileRecord>)
    requires !FsStores(size, req.body.fails, config.maxContentLength, env.put) || forall ts :: !TagsPass(t, req, env, replaced, ts)
    ensures !Fills(t, req, env, size, config, replaced)
  {
  }

  /** The row the upload has reserved makes no difference to what its tags cost. */
  lemma NotFilledBefore(t: Tables, rec: FileRecord, req: UploadRequest, env: UploadEnv, size: int, config: Config,
                        replaced: Option<FileRecord>, reason: Reason)
    requires !Fills(t.Insert(rec), req, env, size, config, replaced)
    requires FillCause(reason, t.Insert(rec), req, env, size, config, replaced)
    ensures !Fills(t, req, env, size, config, replaced) && FillCause(reason, t, req, env, size, config, replaced)
  {
    SameDemands(t, rec, req, env, replaced);
    hide TagCause, TagsPass;
  }

  /** The upload comes as far as going live, with these tags and superseding this file. */
  ghost predicate Cleared(t: Tables, req: UploadRequest, env: UploadEnv, size: int, config: Config,
                          ts: seq<Tag>, replaced: Option<FileRecord>)
  {
    && Admitted(t, req, env, config) && IsSuperseded(t, req.name, replaced, config.appendOnly)
    && (replaced.Some? ==> FileDelete in req.perms)
    && FsStores(size, req.body.fails, config.maxContentLength, env.put) && TagsPass(t, req, env, replaced, ts)
  }

  predicate FinalizeWorks(env: UploadEnv) {
    CallWorks(env.finalize, 1)
  }

  /** The closing transaction commits, or there is nothing for it to do. */
  predicate ApplyWorks(env: UploadEnv, ts: seq<Tag>, replaced: Option<FileRecord>) {
    (ts == [] && replaced == None) || CallWorks(env.apply, 3 + |ts|)
  }

  /**
   The upload supersedes a live file, goes live, and does not get to retire that file: the row is finalized,
   but reading it back or committing the closing transaction fails.
   */
  ghost predicate LeavesTwoLive(t: Tables, req: UploadRequest, env: UploadEnv, size: int, config: Config) {
    NameTaken(t, req.name) && exists ts, replaced :: InterruptedAt(t, req, env, size, config, ts, replaced)
  }

  ghost predicate InterruptedAt(t: Tables, req: UploadRequest, env: UploadEnv, size: int, config: Config,
                                ts: seq<Tag>, replaced: Option<FileRecord>)
  {
    && Cleared(t, req, env, size, config, ts, replaced)
    && CallWorks(env.finalize, 0) && !(CallWorks(env.finalize, 1) && CallWorks(env.apply, 3 + |ts|))
  }

  /** A request has one list of tags. */
  lemma TagsAreDetermined(req: UploadRequest, a: seq<Tag>, b: seq<Tag>)
    ensures IsTagsOf(req, a) && IsTagsOf(req, b) ==> a == b
  {
    if req.lateTags.Some? {
      ParsesToOne(req.earlyTags + req.lateTags.value);
    }
  }

  /** They are the tags of the labels sent before the file and of those sent after it, each once. */
  lemma TagsComeFromBothLists(req: UploadRequest, ts: seq<Tag>, tag: Tag)
    requires IsTagsOf(req, ts)
    ensures Distinct(ts)
    ensures tag in ts <==>
            exists text :: (text in req.earlyTags || text in req.lateTags.value) && ParseTag(text) == Success(tag)
  {
    hide ParseTag;
    var raw := req.earlyTags + req.lateTags.value;
    var parsed :| ParsedAs(raw, parsed) && ts == Dedup(parsed);
    DedupKeepsFirstOccurrences(parsed);
    if tag in parsed {
      var i :| 0 <= i < |parsed| && parsed[i] == tag;
      assert raw[i] in req.earlyTags || raw[i] in req.lateTags.value;
    }
    if text :| (text in req.earlyTags || text in req.lateTags.value) && ParseTag(text) == Success(tag) {
      assert text in raw;
      var i :| 0 <= i < |raw| && raw[i] == text;
      assert parsed[i] == tag;
    }
  }

  /** When names are unique, so is the file an upload supersedes. */
  lemma SupersededIsDetermined(t: Tables, name: string, a: Option<FileRecord>, b: Option<FileRecord>)
    requires t.WellFormed() && NamesAreUnique(t) && t.IsAnswerByName(a, name) && t.IsAnswerByName(b, name)
    ensures a == b && (a.Some? <==> NameTaken(t, name))
  {
  }

  /** The row as it is before the upload is finalized. */
  function Unfinished(file: FileRecord): FileRecord {
    file.(size := 0, modified := "", pending := true)
  }

  ghost predicate IsReserved(t: Tables, req: UploadRequest, file: FileRecord) {
    && IsSlug(file.slug) && file.slug !in t.files
    && file == FileRecord(file.slug, req.name, StorageKeyForSlug(file.slug), 0, "", req.mimeType, false, true)
  }

  /** The lookup that a new upload makes of its name works, or is not made. */
  predicate NameLookedUp(env: UploadEnv, config: Config) {
    config.appendOnly || env.lookupWorks
  }

  /** The upload would supersede a file without being allowed to. */
  ghost predicate MayNotSupersede(t: Tables, req: UploadRequest, config: Config) {
    !config.appendOnly && NameTaken(t, req.name) && FileDelete !in req.perms
  }

  /** The one reason for which an upload is refused before any of it is read: the first check that fails. */
  ghost predicate RefusalCause(reason: Reason, t: Tables, req: UploadRequest, env: UploadEnv, config: Config) {
    match reason
    case Forbidden(p) =>
      if FileCreate !in req.perms then p == FileCreate
      else p == FileDelete && !config.readOnly && NameLookedUp(env, config) && MayNotSupersede(t, req, config)
    case ReadOnlyInstance => FileCreate in req.perms && config.readOnly
    case DatabaseFailed =>
      && FileCreate in req.perms && !config.readOnly
      && (NameLookedUp(env, config) ==> !MayNotSupersede(t, req, config) && !ReserveWorks(t, env))
    case _ => false
  }

  /** The reason for which an upload is abandoned: what goes wrong first with its body, its form or its tags. */
  ghost predicate FillCause(reason: Reason, t: Tables, req: UploadRequest, env: UploadEnv, size: int, config: Config,
                            replaced: Option<FileRecord>)
  {
    if FsStores(size, req.body.fails, config.maxContentLength, env.put) then TagCause(reason, t, req, env, replaced)
    else
      || (reason == OversizedBody && !Fits(size, config.maxContentLength))
      || (reason == StorageFailed && (env.put != NO_FS_FAULTS || req.body.fails))
  }

  ghost predicate TagCause(reason: Reason, t: Tables, req: UploadRequest, env: UploadEnv, replaced: Option<FileRecord>) {
    match reason
    case BrokenForm => req.lateTags == None
    case BadTag(error) => req.lateTags.Some? && FirstError(req.earlyTags + req.lateTags.value, error)
    case DatabaseFailed => exists asked :: IsTagsOf(req, asked) && !LookupsWork(t, env.perms, asked, replaced)
    case Forbidden(p) => exists asked :: IsTagsOf(req, asked) && LookupsWork(t, env.perms, asked, replaced)
                                         && FirstForbidden(t, asked, replaced, req.perms, p)
    case _ => false
  }

  /** p is demanded and not held; adding tags is asked for before taking any off. */
  ghost predicate FirstForbidden(t: Tables, asked: seq<Tag>, replaced: Option<FileRecord>, perms: set<Permission>, p: Permission) {
    && DemandsForTags(t, asked, replaced, p) && p !in perms
    && (p == TagRemove && asked != [] ==> TagAdd in perms)
  }

  lemma FillCauses(reason: Reason, t: Tables, req: UploadRequest, env: UploadEnv, size: int, config: Config,
                   replaced: Option<FileRecord>)
    requires if FsStores(size, req.body.fails, config.maxContentLength, env.put) then TagCause(reason, t, req, env, replaced)
             else || (reason == OversizedBody && !Fits(size, config.maxContentLength))
                  || (reason == StorageFailed && (env.put != NO_FS_FAULTS || req.body.fails))
    ensures FillCause(reason, t, req, env, size, config, replaced)
  {
  }

  /** An upload that was refused or abandoned, or failed to go live, is invisible. */
  lemma FailedUploadsAreInvisible(t: Tables, u: Tables, req: UploadRequest, env: UploadEnv, size: int, config: Config,
                                  out: UploadOutcome, file: FileRecord, ts: seq<Tag>)
    requires t.WellFormed() && UploadContract(t, u, req, env, size, config, out, file, ts)
    ensures out.Refused? || out.Abandoned? || (out.Broken? && !out.live) ==> VisibleOf(u) == VisibleOf(t)
  {
    if Untouched(t, u) {
      UntouchedLooksTheSame(t, u);
    }
  }

  /**
   Uploads handled one at a time keep every tag on a live file, whatever fails. They keep names unique
   too, with exactly one exception: an upload that may supersede a live file goes live, but a call fails
   between that and the commit that retires the file.
   */
  lemma UploadsKeepTheTablesInOrder(t: Tables, u: Tables, req: UploadRequest, env: UploadEnv, size: int, config: Config,
                                    out: UploadOutcome, file: FileRecord, ts: seq<Tag>)
    requires t.WellFormed() && UploadContract(t, u, req, env, size, config, out, file, ts)
    ensures TagsNameLiveFiles(t) ==> TagsNameLiveFiles(u)
    ensures !config.appendOnly && NamesAreUnique(t) ==>
              (NamesAreUnique(u) <==> !LeavesTwoLive(t, req, env, size, config))
  {
    hide TagsNameLiveFiles, NamesAreUnique, LeavesTwoLive;
    if out.Refused? {
    } else if out.Abandoned? || (out.Broken? && !out.live) {
      UntouchedLooksTheSame(t, u);
    } else {
      OutcomeKeeps(t, file, ts, out.replaced, config.appendOnly);
    }
    if !config.appendOnly && NamesAreUnique(t) {
      InterruptionIsTheException(t, u, req, env, size, config, out, file, ts);
    }
  }

  /** The calls that fail tell whether the outcome is an upload that went live without retiring what it supersedes. */
  lemma InterruptionIsTheException(t: Tables, u: Tables, req: UploadRequest, env: UploadEnv, size: int, config: Config,
                                   out: UploadOutcome, file: FileRecord, ts: seq<Tag>)
    requires t.WellFormed() && UploadContract(t, u, req, env, size, config, out, file, ts)
    ensures !config.appendOnly && NamesAreUnique(t) ==>
              (LeavesTwoLive(t, req, env, size, config) <==> out.Broken? && out.live && !out.applied && out.replaced.Some?)
  {
    if config.appendOnly || !NamesAreUnique(t) {
      return;
    }
    hide NamesAreUnique, TagsPass, FsStores, Tables.WellFormed, IsFinalRecord, NameTaken;
    forall ts', replaced | InterruptedAt(t, req, env, size, config, ts', replaced)
      ensures !out.Refused? && !out.Abandoned?
      ensures replaced == out.replaced && ts' == ts && (replaced.Some? <==> NameTaken(t, req.name))
    {
      match out
      case Refused(_) =>
      case Abandoned(_) =>
        var r :| IsSuperseded(t, req.name, r, config.appendOnly) && !Fills(t, req, env, size, config, r);
        SupersededIsDetermined(t, req.name, replaced, r);
        assert false;
      case _ =>
        SupersededIsDetermined(t, req.name, replaced, out.replaced);
        TagsPassMeansTags(t, req, env, replaced, ts');
        TagsPassMeansTags(t, req, env, replaced, ts);
        TagsAreDetermined(req, ts, ts');
    }
    if out.Broken? && out.live && !out.applied && out.replaced.Some? {
      SupersededIsDetermined(t, req.name, out.replaced, out.replaced);
      assert InterruptedAt(t, req, env, size, config, ts, out.replaced);
    }
  }

  /** Tags that do not pass are the only ones there are. */
  lemma TagsFail(t: Tables, req: UploadRequest, env: UploadEnv, replaced: Option<FileRecord>, ts: seq<Tag>)
    requires IsTagsOf(req, ts) && !TagsPass(t, req, env, replaced, ts)
    ensures forall x :: !TagsPass(t, req, env, replaced, x)
  {
    hide LookupsWork, DemandsForTags, IsTagsOf;
    forall x | TagsPass(t, req, env, replaced, x) ensures false {
      TagsAreDetermined(req, ts, x);
    }
  }

  /** A request whose tags cannot all be read and parsed has none that pass. */
  lemma NoTagsPass(t: Tables, req: UploadRequest, env: UploadEnv, replaced: Option<FileRecord>)
    requires req.lateTags.Some? ==> exists k: nat :: FirstFailure(req.earlyTags + req.lateTags.value, k)
    ensures forall x :: !TagsPass(t, req, env, replaced, x)
  {
    hide LookupsWork, DemandsForTags, ParsesTo, FirstFailure;
    if req.lateTags.Some? {
      ParsesToOne(req.earlyTags + req.lateTags.value);
    }
  }

  lemma TagsPassMeansTags(t: Tables, req: UploadRequest, env: UploadEnv, replaced: Option<FileRecord>, ts: seq<Tag>)
    ensures TagsPass(t, req, env, replaced, ts) ==> IsTagsOf(req, ts)
  {
  }

  /** What holds once an upload is cleared to go live. */
  ghost predicate Prepared(t: Tables, u: Tables, req: UploadRequest, env: UploadEnv, size: int, rec: FileRecord, ts: seq<Tag>,
                           replaced: Option<FileRecord>, config: Config)
  {
    && IsSlug(rec.slug) && rec.slug !in t.files && u == t.Insert(rec)
    && rec == FileRecord(rec.slug, req.name, StorageKeyForSlug(rec.slug), 0, "", req.mimeType, false, true)
    && Cleared(t, req, env, size, config, ts, replaced)
  }

  lemma PreparedFacts(t: Tables, req: UploadRequest, env: UploadEnv, size: int, rec: FileRecord, ts: seq<Tag>,
                      replaced: Option<FileRecord>, config: Config)
    requires IsSlug(rec.slug) && rec.slug !in t.files
    requires rec == FileRecord(rec.slug, req.name, StorageKeyForSlug(rec.slug), 0, "", req.mimeType, false, true)
    requires Admitted(t, req, env, config) && IsSuperseded(t, req.name, replaced, config.appendOnly)
    requires replaced.Some? ==> FileDelete in req.perms
    requires FsStores(size, req.body.fails, config.maxContentLength, env.put) && TagsPass(t, req, env, replaced, ts)
    ensures Prepared(t, t.Insert(rec), req, env, size, rec, ts, replaced, config)
  {
    hide *;
    assert Cleared(t, req, env, size, config, ts, replaced) by {
      ClearedMeans(t, req, env, size, config, ts, replaced);
    }
    PreparedMeans(t, req, env, size, rec, ts, replaced, config);
  }

  lemma ClearedMeans(t: Tables, req: UploadRequest, env: UploadEnv, size: int, config: Config,
                     ts: seq<Tag>, replaced: Option<FileRecord>)
    ensures && Admitted(t, req, env, config) && IsSuperseded(t, req.name, replaced, config.appendOnly)
            && (replaced.Some? ==> FileDelete in req.perms)
            && FsStores(size, req.body.fails, config.maxContentLength, env.put) && TagsPass(t, req, env, replaced, ts)
            <==> Cleared(t, req, env, size, config, ts, replaced)
  {
  }

  lemma PreparedMeans(t: Tables, req: UploadRequest, env: UploadEnv, size: int, rec: FileRecord, ts: seq<Tag>,
                      replaced: Option<FileRecord>, config: Config)
    requires IsSlug(rec.slug) && rec.slug !in t.files && Cleared(t, req, env, size, config, ts, replaced)
    requires rec == FileRecord(rec.slug, req.name, StorageKeyForSlug(rec.slug), 0, "", req.mimeType, false, true)
    ensures Prepared(t, t.Insert(rec), req, env, size, rec, ts, replaced, config)
  {
    hide Cleared;
  }

  lemma RefusedContract(t: Tables, req: UploadRequest, env: UploadEnv, size: int, config: Config, reason: Reason,
                        file: FileRecord, ts: seq<Tag>)
    requires !Admitted(t, req, env, config)
    requires RefusalCause(reason, t, req, env, config)
    ensures UploadContract(t, t, req, env, size, config, Refused(reason), file, ts)
  {
  }

  lemma AbandonedContract(t: Tables, u: Tables, req: UploadRequest, env: UploadEnv, size: int, config: Config, reason: Reason,
                          file: FileRecord, ts: seq<Tag>, replaced: Option<FileRecord>)
    requires Untouched(t, u) && IsSuperseded(t, req.name, replaced, config.appendOnly)
    requires Admitted(t, req, env, config) && !Fills(t, req, env, size, config, replaced)
    requires IsReserved(t, req, file) && u == t.Insert(file).Abort(file.slug, env.abort)
    requires FillCause(reason, t, req, env, size, config, replaced)
    ensures UploadContract(t, u, req, env, size, config, Abandoned(reason), file, ts)
  {
    hide Untouched, Admitted, Fills, IsSuperseded, FillCause, IsReserved, Tables.Abort;
  }

  lemma PublishedTables(t: Tables, u: Tables, req: UploadRequest, env: UploadEnv, size: int, rec: FileRecord, ts: seq<Tag>,
                        replaced: Option<FileRecord>, config: Config)
    requires t.WellFormed() && Prepared(t, u, req, env, size, rec, ts, replaced, config)
    ensures rec.slug in u.files && rec.slug in u.Finalize(rec.slug, size, env.now).files
    ensures replaced.Some? ==> replaced.value.storageKey != rec.storageKey
  {
    if replaced.Some? {
      StorageKeysAreInjective(rec.slug, replaced.value.slug);
    }
  }

  lemma PublishedContract(t: Tables, u: Tables, req: UploadRequest, env: UploadEnv, size: int, rec: FileRecord, ts: seq<Tag>,
                          replaced: Option<FileRecord>, config: Config, out: UploadOutcome)
    requires t.WellFormed() && Prepared(t, t.Insert(rec), req, env, size, rec, ts, replaced, config)
    requires PublishOutcome(t.Insert(rec), u, rec, size, ts, replaced, env, out)
    ensures UploadContract(t, u, req, env, size, config, out, rec.(size := size, modified := env.now, pending := false), ts)
  {
    hide Cleared;
    assert t.Insert(rec).Finalize(rec.slug, size, env.now)
        == t.Insert(rec.(size := size, modified := env.now, pending := false));
    AbortedIsUntouched(t, rec, None);
  }

  lemma PublishOutcomes(t: Tables, rec: FileRecord, size: int, ts: seq<Tag>, replaced: Option<FileRecord>, env: UploadEnv)
    requires rec.slug in t.files
    ensures var final := t.Finalize(rec.slug, size, env.now);
            var complete := final.ApplyUpload(rec.slug, ts, SlugOf(replaced));
            && rec.slug in final.files
            && (!FinalizeWorks(env) ==>
                  var live := CallWorks(env.finalize, 0);
                  PublishOutcome(t, if live then final else t, rec, size, ts, replaced, env, Broken(live, false, replaced)))
            && (FinalizeWorks(env) && !ApplyWorks(env, ts, replaced) ==>
                  PublishOutcome(t, final, rec, size, ts, replaced, env, Broken(true, false, replaced)))
            && (FinalizeWorks(env) && ApplyWorks(env, ts, replaced) ==>
                  PublishOutcome(t, complete, rec, size, ts, replaced, env,
                                 if env.listWorks then Uploaded(final.files[rec.slug], complete.TagsOf(rec.slug), replaced)
                                 else Broken(true, true, replaced)))
  {
  }

  lemma FinalizeKeepsRow(t: Tables, slug: Slug, size: int, modified: string)
    requires slug in t.files
    ensures slug in t.Finalize(slug, size, modified).files
  {
  }

  /** What the publishing part of an upload has done to the tables, by outcome. */
  ghost predicate PublishOutcome(t: Tables, u: Tables, rec: FileRecord, size: int, ts: seq<Tag>, replaced: Option<FileRecord>,
                                 env: UploadEnv, out: UploadOutcome)
  {
    var final := t.Finalize(rec.slug, size, env.now);
    && rec.slug in final.files
    && match out
       case Broken(live, applied, r) =>
         && r == replaced
         && !(FinalizeWorks(env) && ApplyWorks(env, ts, replaced) && env.listWorks)
         && live == CallWorks(env.finalize, 0) && applied == (FinalizeWorks(env) && ApplyWorks(env, ts, replaced))
         && u == if !live then t else if !applied then final else final.ApplyUpload(rec.slug, ts, SlugOf(replaced))
       case Uploaded(r, tags, _) =>
         && FinalizeWorks(env) && ApplyWorks(env, ts, replaced) && env.listWorks
         && r == final.files[rec.slug] && out.replaced == replaced
         && u == final.ApplyUpload(rec.slug, ts, SlugOf(replaced)) && tags == u.TagsOf(rec.slug)
       case _ => false
  }

  /** What the lookup of the superseded file may have answered; append-only servers do not look. */
  ghost predicate IsSuperseded(t: Tables, name: string, replaced: Option<FileRecord>, appendOnly: bool) {
    if appendOnly then replaced == None else t.IsAnswerByName(replaced, name)
  }

  ghost predicate IsFinalRecord(t: Tables, req: UploadRequest, env: UploadEnv, size: int, file: FileRecord) {
    && IsSlug(file.slug) && file.slug !in t.files
    && file == FileRecord(file.slug, req.name, StorageKeyForSlug(file.slug), size, env.now, req.mimeType, false, false)
  }

  /** A reserved row has no tags, so it costs nothing. */
  lemma SameDemands(t: Tables, rec: FileRecord, req: UploadRequest, env: UploadEnv, replaced: Option<FileRecord>)
    ensures forall ts, p :: DemandsForTags(t.Insert(rec), ts, replaced, p) <==> DemandsForTags(t, ts, replaced, p)
    ensures forall ts :: TagsPass(t.Insert(rec), req, env, replaced, ts) <==> TagsPass(t, req, env, replaced, ts)
    ensures forall reason :: TagCause(reason, t.Insert(rec), req, env, replaced) <==> TagCause(reason, t, req, env, replaced)
  {
    hide IsTagsOf;
    forall ts, p ensures DemandsForTags(t.Insert(rec), ts, replaced, p) <==> DemandsForTags(t, ts, replaced, p) {
      SameDemand(t, rec, ts, replaced, p);
    }
  }

  lemma SameDemand(t: Tables, rec: FileRecord, ts: seq<Tag>, replaced: Option<FileRecord>, p: Permission)
    ensures DemandsForTags(t.Insert(rec), ts, replaced, p) <==> DemandsForTags(t, ts, replaced, p)
  {
  }

  lemma OutcomeKeeps(t: Tables, file: FileRecord, ts: seq<Tag>, replaced: Option<FileRecord>, appendOnly: bool)
    requires t.WellFormed() && file.slug !in t.files && !file.pending && !file.deleted
    requires IsSuperseded(t, file.displayName, replaced, appendOnly)
    ensures TagsNameLiveFiles(t) ==> TagsNameLiveFiles(t.Insert(file)) && TagsNameLiveFiles(UploadResult(t, file, ts, SlugOf(replaced)))
    ensures !appendOnly && NamesAreUnique(t) ==>
              NamesAreUnique(UploadResult(t, file, ts, SlugOf(replaced))) && (NamesAreUnique(t.Insert(file)) <==> replaced == None)
  {
    if TagsNameLiveFiles(t) {
      UploadsKeepTagsLive(t, file, ts, SlugOf(replaced));
    }
    if !appendOnly && NamesAreUnique(t) {
      UploadsKeepNamesUnique(t, file, ts, replaced);
    }
  }
}
