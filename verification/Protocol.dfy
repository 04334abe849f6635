/**
 Requests running side by side over the record database and the blob store.

 Every request is a little program: a phase plus the values it carries. A step of the system is one
 atomic action of one request - a statement or transaction of the database, a call of the blob store -
 and any request may be at any phase when another takes a step, may see any call fail, and may stop
 for good between two steps, which is what a crash does to all of them.
 */
module Protocol {
  import opened Wrappers
  import opened Bytes
  import opened Keys
  import opened TagSyntax
  import opened Records

  datatype Phase =
    | Streaming   // the row is reserved and the body is being stored
    | Stored      // the store has accepted the whole body
    | Cleared     // tags parsed and permissions granted: next, the upload goes live
    | WentLive    // finalized; tags not applied and superseded file not retired yet
    | Retagged    // tags applied and superseded file retired; its blob remains
    | Done
    | Stuck       // an error after the point of no clean return
    | DropBlob    // abandoning the upload: the blob goes first,
    | DropRow     // then the row is marked deleted,
    | DropTags    // then tags pointing at it are swept
    | Discarded

  datatype Upload = Upload(rec: FileRecord, phase: Phase, streamed: Bytes, ts: seq<Tag>, replaced: Option<FileRecord>)

  datatype Request =
    | Uploading(up: Upload)
    | Deleting(rec: FileRecord)             // row deleted, blob still to be removed
    | Tagging(slug: Slug, ts: seq<Tag>)     // the file was seen live, tags not attached yet
    | Reading(rec: FileRecord)              // the record was resolved, blob not opened yet

  /** The database, the blob store, and the bytes each upload that went live had streamed. */
  datatype Stores = Stores(tables: Tables, blobs: map<string, Bytes>, content: map<Slug, Bytes>) {
    function WithTables(t: Tables): Stores {
      this.(tables := t)
    }

    function WriteBlob(key: string, bytes: Bytes): Stores {
      this.(blobs := blobs[key := bytes])
    }

    function RemoveBlob(key: string): Stores {
      this.(blobs := blobs - {key})
    }

    function Publish(slug: Slug, bytes: Bytes, modified: string): Stores {
      this.(tables := tables.Finalize(slug, |bytes|, modified), content := content[slug := bytes])
    }
  }

  /**
   The stores and the requests in flight, with the committed states that were copied for replicas and
   every blob that was handed to a reader. No action consults the histories, content included.
   */
  datatype State = State(
    stores: Stores,
    requests: map<nat, Request>,
    snapshots: seq<Tables>,
    served: seq<(Slug, Bytes)>)

  const INITIAL := State(Stores(Tables(map[], map[]), map[], map[]), map[], [], [])

  datatype Action =
    | Reserve(id: nat, rec: FileRecord, replaced: Option<FileRecord>, appendOnly: bool)
    | PutChunk(id: nat, chunk: Bytes, visible: bool)
    | PutDone(id: nat)
    | PutFailed(id: nat, leftover: Option<Bytes>)
    | Reject(id: nat)
    | Clear(id: nat, ts: seq<Tag>)
    | Finalize(id: nat, modified: string, updated: bool, readBack: bool)
    | Retag(id: nat, works: bool)
    | ListFailed(id: nat)
    | Reclaim(id: nat, works: bool)
    | DiscardBlob(id: nat, works: bool)
    | DiscardRow(id: nat, works: bool)
    | DiscardTags(id: nat, works: bool)
    | SoftDelete(id: nat, slug: Slug)
    | RemoveBlob(id: nat, works: bool)
    | CheckTaggable(id: nat, slug: Slug, ts: seq<Tag>)
    | AttachTags(id: nat, works: bool)
    | DetachTag(slug: Slug, tag: Tag)
    | Resolve(id: nat, slug: Slug, snapshot: Option<nat>)
    | OpenBlob(id: nat)
    | TakeSnapshot
    | Stop(id: nat)

  predicate UploadIn(s: State, id: nat, phase: Phase) {
    id in s.requests && s.requests[id].Uploading? && s.requests[id].up.phase == phase
  }

  /** The tables a reader resolves against: the live database, or a replica's snapshot. */
  predicate IsSource(s: State, snapshot: Option<nat>) {
    snapshot.Some? ==> snapshot.value < |s.snapshots|
  }

  function Source(s: State, snapshot: Option<nat>): Tables
    requires IsSource(s, snapshot)
  {
    if snapshot.None? then s.stores.tables else s.snapshots[snapshot.value]
  }

  ghost predicate Enabled(s: State, a: Action) {
    var t := s.stores.tables;
    match a
    case Reserve(id, rec, replaced, appendOnly) =>
      && id !in s.requests
      && IsSlug(rec.slug) && rec.slug !in t.files
      && rec.storageKey == StorageKeyForSlug(rec.slug) && rec.size == 0 && rec.pending && !rec.deleted
      && (if appendOnly then replaced == None else t.IsAnswerByName(replaced, rec.displayName))
    case PutChunk(id, _, _) => UploadIn(s, id, Streaming)
    case PutDone(id) => UploadIn(s, id, Streaming)
    case PutFailed(id, _) => UploadIn(s, id, Streaming)
    case Reject(id) => UploadIn(s, id, Stored)
    case Clear(id, _) => UploadIn(s, id, Stored)
    case Finalize(id, _, _, _) => UploadIn(s, id, Cleared)
    case Retag(id, _) => UploadIn(s, id, WentLive)
    case ListFailed(id) => UploadIn(s, id, Retagged)
    case Reclaim(id, _) => UploadIn(s, id, Retagged)
    case DiscardBlob(id, _) => UploadIn(s, id, DropBlob)
    case DiscardRow(id, _) => UploadIn(s, id, DropRow)
    case DiscardTags(id, _) => UploadIn(s, id, DropTags)
    case SoftDelete(id, slug) => id !in s.requests && t.IsLive(slug)
    case RemoveBlob(id, _) => id in s.requests && s.requests[id].Deleting?
    case CheckTaggable(id, slug, _) => id !in s.requests && t.IsLive(slug)
    case AttachTags(id, _) => id in s.requests && s.requests[id].Tagging?
    case DetachTag(_, _) => true
    case Resolve(id, slug, snapshot) => id !in s.requests && IsSource(s, snapshot) && Source(s, snapshot).IsLive(slug)
    case OpenBlob(id) => id in s.requests && s.requests[id].Reading?
    case TakeSnapshot => true
    case Stop(id) => id in s.requests
  }

  /** The stores after an action of an upload. */
  function StoresAfter(st: Stores, up: Upload, a: Action): Stores {
    var slug, key := up.rec.slug, up.rec.storageKey;
    match a
    case PutChunk(_, chunk, visible) =>
      // A file store shows the part written so far under the key; an object store shows nothing yet.
      if visible then st.WriteBlob(key, up.streamed + chunk) else st
    case PutDone(_) => st.WriteBlob(key, up.streamed)
    case PutFailed(_, leftover) => if leftover.Some? then st.WriteBlob(key, leftover.value) else st.RemoveBlob(key)
    case Finalize(_, modified, updated, _) => if updated then st.Publish(slug, up.streamed, modified) else st
    case Retag(_, works) => if works then st.WithTables(st.tables.ApplyUpload(slug, up.ts, SlugOf(up.replaced))) else st
    case Reclaim(_, works) => if up.replaced.Some? && works then st.RemoveBlob(up.replaced.value.storageKey) else st
    case DiscardBlob(_, works) => if works then st.RemoveBlob(key) else st
    case DiscardRow(_, works) => if works then st.WithTables(st.tables.Abandon(slug)) else st
    case DiscardTags(_, works) => if works then st.WithTables(st.tables.DropTagsOf(slug)) else st
    case _ => st
  }

  /** The upload itself after its action. */
  function UploadAfter(up: Upload, a: Action): Upload {
    match a
    case PutChunk(_, chunk, _) => up.(streamed := up.streamed + chunk)
    case PutDone(_) => up.(phase := Stored)
    case PutFailed(_, _) => up.(phase := DropBlob)
    case Reject(_) => up.(phase := DropBlob)
    case Clear(_, ts) => up.(phase := Cleared, ts := ts)
    case Finalize(_, _, updated, readBack) => up.(phase := if updated && readBack then WentLive else Stuck)
    case Retag(_, works) => up.(phase := if works then Retagged else Stuck)
    case ListFailed(_) => up.(phase := Stuck)
    case Reclaim(_, _) => up.(phase := Done)
    case DiscardBlob(_, _) => up.(phase := DropRow)
    case DiscardRow(_, works) => up.(phase := if works then DropTags else Discarded)
    case DiscardTags(_, _) => up.(phase := Discarded)
    case _ => up
  }

  predicate IsUploadAction(a: Action) {
    || a.PutChunk? || a.PutDone? || a.PutFailed? || a.Reject? || a.Clear? || a.Finalize? || a.Retag?
    || a.ListFailed? || a.Reclaim? || a.DiscardBlob? || a.DiscardRow? || a.DiscardTags?
  }

  ghost function Next(s: State, a: Action): State
    requires Enabled(s, a)
  {
    var st := s.stores;
    if IsUploadAction(a) then
      var up := s.requests[a.id].up;
      s.(stores := StoresAfter(st, up, a), requests := s.requests[a.id := Uploading(UploadAfter(up, a))])
    else
      match a
      case Reserve(id, rec, replaced, _) =>
        s.(stores := st.WithTables(st.tables.Insert(rec)),
           requests := s.requests[id := Uploading(Upload(rec, Streaming, [], [], replaced))])
      case SoftDelete(id, slug) =>
        s.(stores := st.WithTables(st.tables.SoftDelete(slug)),
           requests := s.requests[id := Deleting(st.tables.files[slug])])
      case RemoveBlob(id, works) =>
        s.(stores := if works then st.RemoveBlob(s.requests[id].rec.storageKey) else st, requests := s.requests - {id})
      case CheckTaggable(id, slug, ts) => s.(requests := s.requests[id := Tagging(slug, ts)])
      case AttachTags(id, works) =>
        s.(stores := if works then st.WithTables(st.tables.Assign(s.requests[id].ts, s.requests[id].slug)) else st,
           requests := s.requests - {id})
      case DetachTag(slug, tag) => s.(stores := st.WithTables(st.tables.DropTag(slug, tag)))
      case Resolve(id, slug, snapshot) =>
        s.(requests := s.requests[id := Reading(Source(s, snapshot).files[slug])])
      case OpenBlob(id) =>
        var rec := s.requests[id].rec;
        s.(requests := s.requests - {id},
           served := if rec.storageKey in st.blobs then s.served + [(rec.slug, st.blobs[rec.storageKey])] else s.served)
      case TakeSnapshot => s.(snapshots := s.snapshots + [st.tables])
      case Stop(id) => s.(requests := s.requests - {id})
      case _ => s
  }

  // ---- The invariant ----

  /** The contents of a file are settled once it has gone live, and the row and the blob agree with them. */
  ghost predicate SettledOk(st: Stores, x: Slug)
    requires x in st.content
  {
    && x in st.tables.files && !st.tables.files[x].pending
    && st.tables.files[x].size == |st.content[x]|
    && (st.tables.files[x].storageKey in st.blobs ==> st.blobs[st.tables.files[x].storageKey] == st.content[x])
  }

  /** Live files have settled contents and a blob; tags name files that have been live. */
  ghost predicate StoresOk(st: Stores) {
    && st.tables.WellFormed()
    && (forall x, y | x in st.tables.files && y in st.tables.files && x != y ::
          st.tables.files[x].storageKey != st.tables.files[y].storageKey)
    && (forall x | x in st.tables.files && st.tables.IsLive(x) ::
          x in st.content && st.tables.files[x].storageKey in st.blobs)
    && (forall x | x in st.content :: SettledOk(st, x))
    && (forall g | g in st.tables.tags :: st.tables.tags[g] in st.content)
  }

  /** A record that some request looked up while the file was live. */
  ghost predicate WasLive(st: Stores, rec: FileRecord) {
    && rec.slug in st.content && rec.slug in st.tables.files
    && st.tables.files[rec.slug].storageKey == rec.storageKey
  }

  ghost predicate UploadOk(st: Stores, up: Upload) {
    var slug, key := up.rec.slug, up.rec.storageKey;
    && slug in st.tables.files && st.tables.files[slug].storageKey == key
    && (up.replaced.Some? ==> WasLive(st, up.replaced.value) && up.replaced.value.slug != slug)
    && match up.phase
       case Streaming => st.tables.IsPending(slug)
       case Stored => st.tables.IsPending(slug) && key in st.blobs && st.blobs[key] == up.streamed
       case Cleared => st.tables.IsPending(slug) && key in st.blobs && st.blobs[key] == up.streamed
       case WentLive => slug in st.content && st.content[slug] == up.streamed
       case Retagged => slug in st.content && (up.replaced.Some? ==> !st.tables.IsLive(up.replaced.value.slug))
       case Done => slug in st.content
       case Stuck => true
       case DropBlob => st.tables.IsPending(slug)
       case DropRow => st.tables.IsPending(slug)
       case DropTags => slug !in st.content && st.tables.files[slug].deleted
       case Discarded => slug !in st.content && !st.tables.IsLive(slug)
  }

  ghost predicate RequestOk(st: Stores, r: Request) {
    match r
    case Uploading(up) => UploadOk(st, up)
    case Deleting(rec) => WasLive(st, rec) && !st.tables.IsLive(rec.slug)
    case Tagging(slug, _) => slug in st.content
    case Reading(rec) => WasLive(st, rec)
  }

  ghost predicate SnapshotOk(st: Stores, t: Tables) {
    && t.WellFormed() && Advances(t, st.tables)
    && forall x | x in t.files && t.IsLive(x) :: x in st.content
  }

  ghost predicate ServedOk(st: Stores, read: (Slug, Bytes)) {
    read.0 in st.content && read.1 == st.content[read.0]
  }

  ghost predicate RequestsOk(s: State) {
    && (forall id | id in s.requests :: RequestOk(s.stores, s.requests[id]))
    && (forall i, j | i in s.requests && j in s.requests && i != j && s.requests[i].Uploading? && s.requests[j].Uploading? ::
          s.requests[i].up.rec.slug != s.requests[j].up.rec.slug)
  }

  ghost predicate HistoryOk(s: State) {
    && (forall n | 0 <= n < |s.snapshots| :: SnapshotOk(s.stores, s.snapshots[n]))
    && (forall n | 0 <= n < |s.served| :: ServedOk(s.stores, s.served[n]))
  }

  ghost predicate Inv(s: State) {
    StoresOk(s.stores) && RequestsOk(s) && HistoryOk(s)
  }

  /**
   What an action does to the rest of the system, own being the row it belongs to: rows only advance,
   settled contents stay settled, and another pending row keeps its state and its blob.
   */
  ghost predicate Frame(st: Stores, st': Stores, own: Option<Slug>) {
    && Advances(st.tables, st'.tables)
    && (forall x | x in st.content :: x in st'.content && st'.content[x] == st.content[x])
    && (forall x | x in st'.content && x !in st.content :: own == Some(x))
    && (forall x | x in st.tables.files && st.tables.IsPending(x) && own != Some(x) :: PendingKept(st, st', x))
  }

  ghost predicate PendingKept(st: Stores, st': Stores, x: Slug)
    requires x in st.tables.files
  {
    var key := st.tables.files[x].storageKey;
    && st'.tables.IsPending(x)
    && (key in st.blobs ==> key in st'.blobs && st'.blobs[key] == st.blobs[key])
  }

  lemma PendingIsUnsettled(st: Stores, slug: Slug)
    requires StoresOk(st) && st.tables.IsPending(slug)
    ensures slug !in st.content && forall g | g in st.tables.tags :: st.tables.tags[g] != slug
  {
    assert forall x | x in st.content :: SettledOk(st, x);
  }

  // ---- What the single effects keep ----

  lemma NothingChanges(st: Stores, own: Option<Slug>)
    ensures Frame(st, st, own)
  {
  }

  lemma RemoveSettledBlobOk(st: Stores, rec: FileRecord)
    requires StoresOk(st) && WasLive(st, rec) && !st.tables.IsLive(rec.slug)
    ensures StoresOk(st.RemoveBlob(rec.storageKey)) && Frame(st, st.RemoveBlob(rec.storageKey), None)
  {
    assert SettledOk(st, rec.slug);
    RemoveBlobOk(st, rec.slug);
  }

  lemma InsertOk(st: Stores, rec: FileRecord)
    requires StoresOk(st) && IsSlug(rec.slug) && rec.slug !in st.tables.files
    requires rec.storageKey == StorageKeyForSlug(rec.slug) && rec.pending
    ensures var st' := st.WithTables(st.tables.Insert(rec)); StoresOk(st') && Frame(st, st', Some(rec.slug))
  {
    forall x | x in st.tables.files ensures st.tables.files[x].storageKey != rec.storageKey {
      StorageKeysAreInjective(x, rec.slug);
    }
    InsertStores(st, rec);
    InsertFrames(st, rec);
  }

  lemma InsertStores(st: Stores, rec: FileRecord)
    requires StoresOk(st) && IsSlug(rec.slug) && rec.slug !in st.tables.files && rec.pending
    requires rec.storageKey == StorageKeyForSlug(rec.slug)
    requires forall x | x in st.tables.files :: st.tables.files[x].storageKey != rec.storageKey
    ensures StoresOk(st.WithTables(st.tables.Insert(rec)))
  {
    InsertKeepsTables(st.tables, rec);
    hide IsSlug, StorageKeyForSlug, Tables.WellFormed;
    var st' := st.WithTables(st.tables.Insert(rec));
    forall x | x in st.content ensures SettledOk(st', x) && x != rec.slug {
      assert SettledOk(st, x);
    }
  }

  lemma InsertFrames(st: Stores, rec: FileRecord)
    requires rec.slug !in st.tables.files
    ensures Frame(st, st.WithTables(st.tables.Insert(rec)), Some(rec.slug))
  {
  }

  lemma WriteBlobOk(st: Stores, x: Slug, bytes: Bytes)
    requires StoresOk(st) && st.tables.IsPending(x)
    ensures var st' := st.WriteBlob(st.tables.files[x].storageKey, bytes); StoresOk(st') && Frame(st, st', Some(x))
  {
    WriteBlobFrames(st, x, bytes);
    hide Frame, Tables.WellFormed;
    forall y | y in st.content ensures SettledOk(st.WriteBlob(st.tables.files[x].storageKey, bytes), y) {
      assert SettledOk(st, y);
    }
  }

  lemma WriteBlobFrames(st: Stores, x: Slug, bytes: Bytes)
    requires x in st.tables.files
    requires forall y | y in st.tables.files && y != x :: st.tables.files[y].storageKey != st.tables.files[x].storageKey
    ensures Frame(st, st.WriteBlob(st.tables.files[x].storageKey, bytes), Some(x))
  {
  }

  lemma RemoveBlobOk(st: Stores, x: Slug)
    requires StoresOk(st) && x in st.tables.files && !st.tables.IsLive(x)
    ensures var st' := st.RemoveBlob(st.tables.files[x].storageKey); StoresOk(st') && Frame(st, st', Some(x))
  {
  }

  lemma PublishOk(st: Stores, x: Slug, bytes: Bytes, modified: string)
    requires StoresOk(st) && st.tables.IsPending(x)
    requires st.tables.files[x].storageKey in st.blobs && st.blobs[st.tables.files[x].storageKey] == bytes
    ensures x !in st.content
    ensures var st' := st.Publish(x, bytes, modified); StoresOk(st') && Frame(st, st', Some(x))
  {
    var st' := st.Publish(x, bytes, modified);
    FinalizeKeepsTables(st.tables, x, |bytes|, modified);
    PublishSettles(st, x, bytes, modified);
    PublishedStores(st, st', x);
    PublishFrames(st, st', x);
  }

  lemma PublishFrames(st: Stores, st': Stores, x: Slug)
    requires Advances(st.tables, st'.tables)
    requires st'.blobs == st.blobs && x !in st.content && st'.content.Keys == st.content.Keys + {x}
    requires forall y | y in st.content :: st'.content[y] == st.content[y]
    requires forall y | y in st.tables.files && y != x :: y in st'.tables.files && st'.tables.files[y] == st.tables.files[y]
    ensures Frame(st, st', Some(x))
  {
  }

  lemma PublishSettles(st: Stores, x: Slug, bytes: Bytes, modified: string)
    requires StoresOk(st) && st.tables.IsPending(x)
    requires st.tables.files[x].storageKey in st.blobs && st.blobs[st.tables.files[x].storageKey] == bytes
    ensures x !in st.content
    ensures forall y | y in st.Publish(x, bytes, modified).content :: SettledOk(st.Publish(x, bytes, modified), y)
  {
    var st' := st.Publish(x, bytes, modified);
    forall y | y in st.content ensures y != x && SettledOk(st', y) {
      assert SettledOk(st, y);
    }
    assert SettledOk(st', x);
  }

  lemma PublishedStores(st: Stores, st': Stores, x: Slug)
    requires StoresOk(st) && st'.tables.WellFormed() && x !in st.content
    requires st'.blobs == st.blobs && st'.content.Keys == st.content.Keys + {x} && st'.tables.tags == st.tables.tags
    requires st'.tables.files.Keys == st.tables.files.Keys
    requires forall y | y in st.tables.files && y != x :: st'.tables.files[y] == st.tables.files[y]
    requires forall y | y in st'.content :: SettledOk(st', y)
    requires x in st.tables.files && st'.tables.files[x].storageKey == st.tables.files[x].storageKey
    requires st.tables.files[x].storageKey in st.blobs
    ensures StoresOk(st')
  {
  }

  /** A change of the tables that neither creates rows nor touches pending or settled columns. */
  ghost predicate MildChange(t: Tables, u: Tables, own: Option<Slug>) {
    && u.files.Keys == t.files.Keys
    && (forall x | x in t.files :: RowAdvances(t.files[x], u.files[x]))
    && (forall x | x in t.files && t.IsPending(x) && own != Some(x) :: u.files[x] == t.files[x])
    && (forall x | x in t.files && u.IsLive(x) :: t.IsLive(x))
  }

  lemma MildChangeOk(st: Stores, u: Tables, own: Option<Slug>)
    requires StoresOk(st) && MildChange(st.tables, u, own)
    requires forall g | g in u.tags :: u.tags[g] in st.content
    requires own.Some? ==> own.value !in st.content
    ensures StoresOk(st.WithTables(u)) && Frame(st, st.WithTables(u), own)
  {
    MildChangeStores(st, u, own);
    MildChangeFrames(st, u, own);
  }

  lemma MildChangeStores(st: Stores, u: Tables, own: Option<Slug>)
    requires StoresOk(st) && MildChange(st.tables, u, own)
    requires forall g | g in u.tags :: u.tags[g] in st.content
    ensures StoresOk(st.WithTables(u))
  {
    var st' := st.WithTables(u);
    forall x | x in st.content ensures SettledOk(st', x) {
      assert SettledOk(st, x);
    }
    forall g | g in u.tags ensures u.tags[g] in u.files {
      assert SettledOk(st, u.tags[g]);
    }
  }

  lemma MildChangeFrames(st: Stores, u: Tables, own: Option<Slug>)
    requires MildChange(st.tables, u, own)
    ensures Frame(st, st.WithTables(u), own)
  {
  }

  lemma SupersedeOk(st: Stores, slug: Slug, ts: seq<Tag>, replaced: Option<Slug>)
    requires StoresOk(st) && slug in st.content && (replaced.Some? ==> replaced.value in st.content)
    ensures var st' := st.WithTables(st.tables.ApplyUpload(slug, ts, replaced));
            StoresOk(st') && Frame(st, st', None) && (replaced.Some? ==> !st'.tables.IsLive(replaced.value))
  {
    var u := st.tables.ApplyUpload(slug, ts, replaced);
    assert SettledOk(st, slug);
    if replaced.Some? {
      assert SettledOk(st, replaced.value);
    }
    ApplyUploadIsMild(st.tables, slug, ts, replaced);
    forall g | g in u.tags ensures u.tags[g] in st.content {
      assert u.tags[g] == slug || (g in st.tables.tags && u.tags[g] == st.tables.tags[g]);
    }
    MildChangeOk(st, u, None);
  }

  lemma ApplyUploadIsMild(t: Tables, slug: Slug, ts: seq<Tag>, replaced: Option<Slug>)
    requires replaced.Some? ==> replaced.value in t.files && !t.files[replaced.value].pending
    ensures var u := t.ApplyUpload(slug, ts, replaced);
            && MildChange(t, u, None)
            && (replaced.Some? ==> !u.IsLive(replaced.value))
            && (forall g | g in u.tags :: u.tags[g] == slug || (g in t.tags && u.tags[g] == t.tags[g]))
  {
  }

  lemma AbandonOk(st: Stores, slug: Slug)
    requires StoresOk(st) && st.tables.IsPending(slug)
    ensures slug !in st.content
    ensures var st' := st.WithTables(st.tables.Abandon(slug)); StoresOk(st') && Frame(st, st', Some(slug))
  {
    assert slug in st.content ==> SettledOk(st, slug);
    MildChangeOk(st, st.tables.Abandon(slug), Some(slug));
  }

  lemma SweepOk(st: Stores, slug: Slug)
    requires StoresOk(st)
    ensures var st' := st.WithTables(st.tables.DropTagsOf(slug)); StoresOk(st') && Frame(st, st', None)
  {
    MildChangeOk(st, st.tables.DropTagsOf(slug), None);
  }

  lemma SoftDeleteOk(st: Stores, slug: Slug)
    requires StoresOk(st) && st.tables.IsLive(slug)
    ensures var st' := st.WithTables(st.tables.SoftDelete(slug));
            StoresOk(st') && Frame(st, st', None) && WasLive(st', st.tables.files[slug]) && !st'.tables.IsLive(slug)
  {
    MildChangeOk(st, st.tables.SoftDelete(slug), None);
  }

  lemma AttachOk(st: Stores, slug: Slug, ts: seq<Tag>)
    requires StoresOk(st) && slug in st.content
    ensures var st' := st.WithTables(st.tables.Assign(ts, slug)); StoresOk(st') && Frame(st, st', None)
  {
    MildChangeOk(st, st.tables.Assign(ts, slug), None);
  }

  lemma DetachOk(st: Stores, slug: Slug, tag: Tag)
    requires StoresOk(st)
    ensures var st' := st.WithTables(st.tables.DropTag(slug, tag)); StoresOk(st') && Frame(st, st', None)
  {
    MildChangeOk(st, st.tables.DropTag(slug, tag), None);
  }

  // ---- What an action of an upload keeps ----

  predicate PhaseAllows(phase: Phase, a: Action) {
    match a
    case PutChunk(_, _, _) => phase == Streaming
    case PutDone(_) => phase == Streaming
    case PutFailed(_, _) => phase == Streaming
    case Reject(_) => phase == Stored
    case Clear(_, _) => phase == Stored
    case Finalize(_, _, _, _) => phase == Cleared
    case Retag(_, _) => phase == WentLive
    case ListFailed(_) => phase == Retagged
    case Reclaim(_, _) => phase == Retagged
    case DiscardBlob(_, _) => phase == DropBlob
    case DiscardRow(_, _) => phase == DropRow
    case DiscardTags(_, _) => phase == DropTags
    case _ => false
  }

  ghost predicate UploadStepOk(st: Stores, up: Upload, a: Action) {
    var st' := StoresAfter(st, up, a);
    StoresOk(st') && Frame(st, st', Some(up.rec.slug)) && UploadOk(st', UploadAfter(up, a))
  }

  lemma StoringKeeps(st: Stores, up: Upload, a: Action)
    requires StoresOk(st) && UploadOk(st, up) && PhaseAllows(up.phase, a)
    requires a.PutChunk? || a.PutDone? || a.PutFailed?
    ensures UploadStepOk(st, up, a)
  {
    hide StoresOk, Frame;
    var slug := up.rec.slug;
    match a
    case PutChunk(_, chunk, visible) =>
      if visible {
        WriteBlobOk(st, slug, up.streamed + chunk);
      } else {
        NothingChanges(st, Some(slug));
      }
    case PutDone(_) => WriteBlobOk(st, slug, up.streamed);
    case PutFailed(_, leftover) =>
      if leftover.Some? {
        WriteBlobOk(st, slug, leftover.value);
      } else {
        RemoveBlobOk(st, slug);
      }
  }

  lemma FinalizeKeeps(st: Stores, up: Upload, a: Action)
    requires StoresOk(st) && UploadOk(st, up) && PhaseAllows(up.phase, a) && a.Finalize?
    ensures UploadStepOk(st, up, a)
  {
    hide StoresOk, Frame;
    if a.updated {
      PublishOk(st, up.rec.slug, up.streamed, a.modified);
      IdentityStays(st, StoresAfter(st, up, a), up);
    } else {
      NothingChanges(st, Some(up.rec.slug));
    }
  }

  lemma RetagKeeps(st: Stores, up: Upload, a: Action)
    requires StoresOk(st) && UploadOk(st, up) && PhaseAllows(up.phase, a) && a.Retag?
    ensures UploadStepOk(st, up, a)
  {
    hide StoresOk, Frame;
    if a.works {
      SupersedeOk(st, up.rec.slug, up.ts, SlugOf(up.replaced));
      FrameWidens(st, StoresAfter(st, up, a), up.rec.slug);
      IdentityStays(st, StoresAfter(st, up, a), up);
    } else {
      NothingChanges(st, Some(up.rec.slug));
    }
  }

  lemma ReclaimKeeps(st: Stores, up: Upload, a: Action)
    requires StoresOk(st) && UploadOk(st, up) && PhaseAllows(up.phase, a) && a.Reclaim?
    ensures UploadStepOk(st, up, a)
  {
    hide StoresOk, Frame;
    if a.works && up.replaced.Some? {
      RemoveSettledBlobOk(st, up.replaced.value);
      FrameWidens(st, StoresAfter(st, up, a), up.rec.slug);
    } else {
      NothingChanges(st, Some(up.rec.slug));
    }
  }

  /** What an upload refers to keeps its row and key. */
  lemma IdentityStays(st: Stores, st': Stores, up: Upload)
    requires Frame(st, st', Some(up.rec.slug)) && UploadOk(st, up)
    ensures up.rec.slug in st'.tables.files && st'.tables.files[up.rec.slug].storageKey == up.rec.storageKey
    ensures up.replaced.Some? ==> WasLive(st', up.replaced.value)
  {
  }

  lemma DiscardingKeeps(st: Stores, up: Upload, a: Action)
    requires StoresOk(st) && UploadOk(st, up) && PhaseAllows(up.phase, a)
    requires a.DiscardBlob? || a.DiscardRow? || a.DiscardTags?
    ensures UploadStepOk(st, up, a)
  {
    hide StoresOk, Frame;
    var slug := up.rec.slug;
    NothingChanges(st, Some(slug));
    match a
    case DiscardBlob(_, works) =>
      RemoveBlobOk(st, slug);
    case DiscardRow(_, works) =>
      AbandonOk(st, slug);
    case DiscardTags(_, works) =>
      SweepOk(st, slug);
      FrameWidens(st, StoresAfter(st, up, a), slug);
  }

  lemma FrameWidens(st: Stores, st': Stores, slug: Slug)
    ensures Frame(st, st', None) ==> Frame(st, st', Some(slug))
  {
  }

  lemma UploadStepKeeps(st: Stores, up: Upload, a: Action)
    requires StoresOk(st) && UploadOk(st, up) && PhaseAllows(up.phase, a)
    ensures UploadStepOk(st, up, a)
  {
    hide StoresOk, Frame;
    if a.PutChunk? || a.PutDone? || a.PutFailed? {
      StoringKeeps(st, up, a);
    } else if a.Finalize? {
      FinalizeKeeps(st, up, a);
    } else if a.Retag? {
      RetagKeeps(st, up, a);
    } else if a.Reclaim? {
      ReclaimKeeps(st, up, a);
    } else if a.DiscardBlob? || a.DiscardRow? || a.DiscardTags? {
      DiscardingKeeps(st, up, a);
    } else {
      NothingChanges(st, Some(up.rec.slug));
    }
  }

  // ---- Every action of every request keeps the invariant ----

  /** The row an action belongs to, when it is an action of an upload. */
  ghost function OwnRow(s: State, a: Action): Option<Slug>
    requires Enabled(s, a)
  {
    if a.Reserve? then Some(a.rec.slug)
    else if IsUploadAction(a) then Some(s.requests[a.id].up.rec.slug)
    else None
  }

  /** A request that takes no part in an action stays as it should be. */
  lemma OtherRequestStays(st: Stores, st': Stores, own: Option<Slug>, r: Request)
    requires StoresOk(st) && Frame(st, st', own) && RequestOk(st, r)
    requires r.Uploading? ==> own != Some(r.up.rec.slug)
    ensures RequestOk(st', r)
  {
  }

  /** Only request id has changed, and it alone may own a row. */
  ghost predicate OnlyChanged(s: State, s': State, id: nat, own: Option<Slug>) {
    && (forall k | k in s'.requests && k != id :: k in s.requests && s'.requests[k] == s.requests[k])
    && (id in s'.requests ==> RequestOk(s'.stores, s'.requests[id]))
    && (id in s'.requests && s'.requests[id].Uploading? ==> own == Some(s'.requests[id].up.rec.slug))
    && (own.Some? ==> forall k | k in s.requests && k != id && s.requests[k].Uploading? ::
                        s.requests[k].up.rec.slug != own.value)
  }

  lemma RequestsStayOk(s: State, s': State, id: nat, own: Option<Slug>)
    requires StoresOk(s.stores) && RequestsOk(s) && Frame(s.stores, s'.stores, own) && OnlyChanged(s, s', id, own)
    ensures RequestsOk(s')
  {
    hide StoresOk, Frame, RequestOk;
    forall k | k in s'.requests ensures RequestOk(s'.stores, s'.requests[k]) {
      if k != id {
        OtherRequestStays(s.stores, s'.stores, own, s.requests[k]);
      }
    }
  }

  lemma HistoryStaysOk(s: State, s': State, own: Option<Slug>)
    requires HistoryOk(s) && Frame(s.stores, s'.stores, own) && s'.snapshots == s.snapshots && s'.served == s.served
    ensures HistoryOk(s')
  {
    forall n | 0 <= n < |s'.snapshots| ensures SnapshotOk(s'.stores, s'.snapshots[n]) {
      AdvancesIsTransitive(s.snapshots[n], s.stores.tables, s'.stores.tables);
    }
    forall n | 0 <= n < |s'.served| ensures ServedOk(s'.stores, s'.served[n]) {
      assert ServedOk(s.stores, s.served[n]);
    }
  }

  /** An action of an upload is one its phase allows, and changes the stores accordingly. */
  lemma UploadActionFacts(s: State, a: Action)
    requires Enabled(s, a) && IsUploadAction(a)
    ensures a.id in s.requests && s.requests[a.id].Uploading? && PhaseAllows(s.requests[a.id].up.phase, a)
    ensures Next(s, a).stores == StoresAfter(s.stores, s.requests[a.id].up, a)
    ensures OwnRow(s, a) == Some(s.requests[a.id].up.rec.slug)
  {
    hide StoresAfter, UploadAfter;
  }

  lemma UploadIsOk(s: State, a: Action)
    requires Inv(s) && Enabled(s, a) && IsUploadAction(a)
    ensures StoresOk(s.stores) && UploadOk(s.stores, s.requests[a.id].up)
  {
    hide StoresOk, UploadOk, HistoryOk;
    assert RequestOk(s.stores, s.requests[a.id]);
  }

  lemma UploadActionKeeps(s: State, a: Action)
    requires Inv(s) && Enabled(s, a) && IsUploadAction(a)
    ensures Inv(Next(s, a)) && Frame(s.stores, Next(s, a).stores, OwnRow(s, a))
  {
    hide StoresOk, Frame, UploadOk, HistoryOk, StoresAfter, UploadAfter, Enabled, PhaseAllows;
    UploadActionFacts(s, a);
    UploadIsOk(s, a);
    var s', own, up := Next(s, a), OwnRow(s, a), s.requests[a.id].up;
    UploadStepKeeps(s.stores, up, a);
    SameUpload(up, a);
    assert OnlyChanged(s, s', a.id, own);
    RequestsStayOk(s, s', a.id, own);
    HistoryStaysOk(s, s', own);
  }

  lemma SameUpload(up: Upload, a: Action)
    ensures UploadAfter(up, a).rec == up.rec && UploadAfter(up, a).replaced == up.replaced
  {
  }

  lemma ReserveKeeps(s: State, a: Action)
    requires Inv(s) && Enabled(s, a) && a.Reserve?
    ensures Inv(Next(s, a)) && Frame(s.stores, Next(s, a).stores, OwnRow(s, a))
  {
    hide StoresOk, Frame, UploadOk, HistoryOk, Next, Enabled, OwnRow, Tables.Insert, IsSlug, StorageKeyForSlug;
    ReserveFacts(s, a);
    var s', own := Next(s, a), OwnRow(s, a);
    InsertOk(s.stores, a.rec);
    ReservedOk(s.stores, a.rec, a.replaced);
    UploadsHaveRows(s, a.rec.slug);
    assert OnlyChanged(s, s', a.id, own);
    RequestsStayOk(s, s', a.id, own);
    HistoryStaysOk(s, s', own);
  }

  lemma ReserveFacts(s: State, a: Action)
    requires Enabled(s, a) && a.Reserve?
    ensures a.rec.storageKey == StorageKeyForSlug(a.rec.slug) && a.rec.pending && !a.rec.deleted && IsSlug(a.rec.slug)
    ensures a.replaced == None || s.stores.tables.IsAnswerByName(a.replaced, a.rec.displayName)
    ensures a.id !in s.requests && a.rec.slug !in s.stores.tables.files && OwnRow(s, a) == Some(a.rec.slug)
    ensures Next(s, a) == s.(stores := s.stores.WithTables(s.stores.tables.Insert(a.rec)),
                             requests := s.requests[a.id := Uploading(Upload(a.rec, Streaming, [], [], a.replaced))])
  {
  }

  lemma UploadsHaveRows(s: State, slug: Slug)
    requires RequestsOk(s) && slug !in s.stores.tables.files
    ensures forall k | k in s.requests && s.requests[k].Uploading? :: s.requests[k].up.rec.slug != slug
  {
    forall k | k in s.requests && s.requests[k].Uploading? ensures s.requests[k].up.rec.slug != slug {
      assert RequestOk(s.stores, s.requests[k]);
    }
  }

  lemma ReservedOk(st: Stores, rec: FileRecord, replaced: Option<FileRecord>)
    requires StoresOk(st) && rec.slug !in st.tables.files && rec.pending && !rec.deleted
    requires replaced == None || st.tables.IsAnswerByName(replaced, rec.displayName)
    ensures UploadOk(st.WithTables(st.tables.Insert(rec)), Upload(rec, Streaming, [], [], replaced))
  {
  }

  lemma SoftDeleteKeeps(s: State, a: Action)
    requires Inv(s) && Enabled(s, a) && a.SoftDelete?
    ensures Inv(Next(s, a)) && Frame(s.stores, Next(s, a).stores, None)
  {
    hide StoresOk, Frame, HistoryOk;
    var s' := Next(s, a);
    SoftDeleteOk(s.stores, a.slug);
    assert RequestOk(s'.stores, Deleting(s.stores.tables.files[a.slug]));
    assert OnlyChanged(s, s', a.id, None);
    RequestsStayOk(s, s', a.id, None);
    HistoryStaysOk(s, s', None);
  }

  lemma RemoveBlobKeeps(s: State, a: Action)
    requires Inv(s) && Enabled(s, a) && a.RemoveBlob?
    ensures Inv(Next(s, a)) && Frame(s.stores, Next(s, a).stores, None)
  {
    var s' := Next(s, a);
    assert RequestOk(s.stores, s.requests[a.id]);
    RemoveSettledBlobOk(s.stores, s.requests[a.id].rec);
    NothingChanges(s.stores, None);
    hide StoresOk, Frame, HistoryOk;
    assert OnlyChanged(s, s', a.id, None);
    RequestsStayOk(s, s', a.id, None);
    HistoryStaysOk(s, s', None);
  }

  lemma TaggingKeeps(s: State, a: Action)
    requires Inv(s) && Enabled(s, a) && (a.CheckTaggable? || a.AttachTags? || a.DetachTag?)
    ensures Inv(Next(s, a)) && Frame(s.stores, Next(s, a).stores, None)
  {
    var s' := Next(s, a);
    NothingChanges(s.stores, None);
    if a.AttachTags? {
      assert RequestOk(s.stores, s.requests[a.id]);
      AttachOk(s.stores, s.requests[a.id].slug, s.requests[a.id].ts);
    } else if a.DetachTag? {
      DetachOk(s.stores, a.slug, a.tag);
    }
    var id := if a.DetachTag? then 0 else a.id;
    assert a.CheckTaggable? ==> RequestOk(s'.stores, s'.requests[id]);
    hide StoresOk, Frame, HistoryOk;
    if a.DetachTag? {
      assert 0 in s.requests ==> RequestOk(s.stores, s.requests[0]);
      AllRequestsStay(s, s');
    } else {
      assert OnlyChanged(s, s', id, None);
      RequestsStayOk(s, s', id, None);
    }
    HistoryStaysOk(s, s', None);
  }

  lemma AllRequestsStay(s: State, s': State)
    requires StoresOk(s.stores) && RequestsOk(s) && Frame(s.stores, s'.stores, None) && s'.requests == s.requests
    ensures RequestsOk(s')
  {
    hide StoresOk, Frame, RequestOk;
    forall k | k in s'.requests ensures RequestOk(s'.stores, s'.requests[k]) {
      OtherRequestStays(s.stores, s'.stores, None, s.requests[k]);
    }
  }

  lemma ResolveKeeps(s: State, a: Action)
    requires Inv(s) && Enabled(s, a) && a.Resolve?
    ensures Inv(Next(s, a)) && Frame(s.stores, Next(s, a).stores, None)
  {
    var s', rec := Next(s, a), Source(s, a.snapshot).files[a.slug];
    ResolvedWasLive(s, a.slug, a.snapshot);
    NothingChanges(s.stores, None);
    hide StoresOk, Frame, HistoryOk, WasLive;
    assert RequestOk(s'.stores, s'.requests[a.id]);
    assert OnlyChanged(s, s', a.id, None);
    RequestsStayOk(s, s', a.id, None);
    HistoryStaysOk(s, s', None);
  }

  lemma ResolvedWasLive(s: State, slug: Slug, snapshot: Option<nat>)
    requires Inv(s) && IsSource(s, snapshot) && Source(s, snapshot).IsLive(slug)
    ensures WasLive(s.stores, Source(s, snapshot).files[slug])
  {
    if snapshot.Some? {
      assert SnapshotOk(s.stores, s.snapshots[snapshot.value]);
    }
  }

  lemma OpenBlobKeeps(s: State, a: Action)
    requires Inv(s) && Enabled(s, a) && a.OpenBlob?
    ensures Inv(Next(s, a)) && Frame(s.stores, Next(s, a).stores, None)
  {
    var s', rec := Next(s, a), s.requests[a.id].rec;
    assert RequestOk(s.stores, s.requests[a.id]);
    assert SettledOk(s.stores, rec.slug);
    NothingChanges(s.stores, None);
    hide StoresOk, Frame, RequestOk;
    forall n | 0 <= n < |s'.served| ensures ServedOk(s'.stores, s'.served[n]) {
      assert n < |s.served| ==> ServedOk(s.stores, s.served[n]);
    }
    assert forall n | 0 <= n < |s'.snapshots| :: s'.snapshots[n] == s.snapshots[n];
  }

  lemma SnapshotKeeps(s: State, a: Action)
    requires Inv(s) && Enabled(s, a) && (a.TakeSnapshot? || a.Stop?)
    ensures Inv(Next(s, a)) && Frame(s.stores, Next(s, a).stores, None)
  {
    assert SnapshotOk(s.stores, s.stores.tables);
    NothingChanges(s.stores, None);
    hide StoresOk, Frame, RequestOk, SnapshotOk, ServedOk;
    var s' := Next(s, a);
    assert s'.stores == s.stores;
    forall n | 0 <= n < |s'.snapshots| ensures SnapshotOk(s'.stores, s'.snapshots[n]) {
      assert n < |s.snapshots| ==> SnapshotOk(s.stores, s.snapshots[n]);
    }
  }

  /** The invariant survives any action of any request, whatever the others are in the middle of. */
  lemma {:induction false} EveryActionKeepsInv(s: State, a: Action)
    requires Inv(s) && Enabled(s, a)
    ensures Inv(Next(s, a))
    ensures Frame(s.stores, Next(s, a).stores, OwnRow(s, a))
  {
    hide Inv, Frame, Next;
    if IsUploadAction(a) {
      UploadActionKeeps(s, a);
    } else if a.Reserve? {
      ReserveKeeps(s, a);
    } else if a.SoftDelete? {
      SoftDeleteKeeps(s, a);
    } else if a.RemoveBlob? {
      RemoveBlobKeeps(s, a);
    } else if a.CheckTaggable? || a.AttachTags? || a.DetachTag? {
      TaggingKeeps(s, a);
    } else if a.Resolve? {
      ResolveKeeps(s, a);
    } else if a.OpenBlob? {
      OpenBlobKeeps(s, a);
    } else {
      SnapshotKeeps(s, a);
    }
  }
}
