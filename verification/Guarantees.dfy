/** What holds over every run of the system, for every interleaving of requests and every crash. */
module Guarantees {
  import opened Wrappers
  import opened Bytes
  import opened Keys
  import opened Records
  import opened Catalogue
  import opened Protocol

  /** states[i + 1] is states[i] after actions[i], from the empty server. */
  ghost predicate IsRun(states: seq<State>, actions: seq<Action>) {
    && |states| == |actions| + 1
    && states[0] == INITIAL
    && forall i | 0 <= i < |actions| :: Enabled(states[i], actions[i]) && states[i + 1] == Next(states[i], actions[i])
  }

  lemma {:induction false} RunKeepsInv(states: seq<State>, actions: seq<Action>, i: nat)
    requires IsRun(states, actions) && i < |states|
    ensures Inv(states[i])
  {
    if i > 0 {
      RunKeepsInv(states, actions, i - 1);
      EveryActionKeepsInv(states[i - 1], actions[i - 1]);
    }
  }

  // ---- The life of a file ----

  /** One action moves a slug at most one stage on, and never back. */
  lemma OneActionMovesOneStage(s: State, a: Action, slug: Slug)
    requires Inv(s) && Enabled(s, a)
    ensures StageStep(s.stores.tables.StageOf(slug), Next(s, a).stores.tables.StageOf(slug))
    ensures Advances(s.stores.tables, Next(s, a).stores.tables)
  {
    EveryActionKeepsInv(s, a);
    if slug in s.stores.tables.files {
      AdvancesNeverReverses(s.stores.tables, Next(s, a).stores.tables, slug);
    } else if slug in Next(s, a).stores.tables.files {
      NewRowsArePending(s, a, slug);
    }
  }

  lemma NewRowsArePending(s: State, a: Action, slug: Slug)
    requires Enabled(s, a) && slug !in s.stores.tables.files && slug in Next(s, a).stores.tables.files
    ensures Next(s, a).stores.tables.IsPending(slug)
  {
    if IsUploadAction(a) {
      UploadsAddNoRows(s.stores, s.requests[a.id].up, a);
    }
  }

  lemma UploadsAddNoRows(st: Stores, up: Upload, a: Action)
    ensures StoresAfter(st, up, a).tables.files.Keys == st.tables.files.Keys
  {
  }

  lemma OneActionKeepsContent(s: State, a: Action)
    requires Inv(s) && Enabled(s, a)
    ensures Advances(s.stores.tables, Next(s, a).stores.tables)
    ensures forall x | x in s.stores.content :: x in Next(s, a).stores.content && Next(s, a).stores.content[x] == s.stores.content[x]
  {
    hide Inv, Next;
    EveryActionKeepsInv(s, a);
  }

  /** Over a run rows never vanish, and a slug keeps its name, key and place in the order of stages. */
  lemma {:induction false} RowsOnlyAdvance(states: seq<State>, actions: seq<Action>, i: nat, j: nat)
    requires IsRun(states, actions) && i <= j < |states|
    ensures Advances(states[i].stores.tables, states[j].stores.tables)
    ensures forall x | x in states[i].stores.content ::
              x in states[j].stores.content && states[j].stores.content[x] == states[i].stores.content[x]
  {
    hide Inv, Enabled, Next;
    if i < j {
      RowsOnlyAdvance(states, actions, i, j - 1);
      RunKeepsInv(states, actions, j - 1);
      OneActionKeepsContent(states[j - 1], actions[j - 1]);
      AdvancesIsTransitive(states[i].stores.tables, states[j - 1].stores.tables, states[j].stores.tables);
    }
  }

  // ---- Live files are whole ----

  /** What the upload running under id has put into the store, going by the actions alone. */
  function Sent(actions: seq<Action>, id: nat): Bytes {
    if actions == [] then []
    else
      var front, last := actions[..|actions| - 1], actions[|actions| - 1];
      if last.Reserve? && last.id == id then []
      else if last.PutChunk? && last.id == id then Sent(front, id) + last.chunk
      else Sent(front, id)
  }

  lemma OneActionStreams(s: State, a: Action, id: nat)
    requires Enabled(s, a) && id in Next(s, a).requests && Next(s, a).requests[id].Uploading?
    requires !(a.Reserve? && a.id == id)
    ensures id in s.requests && s.requests[id].Uploading?
    ensures Next(s, a).requests[id].up.streamed ==
            s.requests[id].up.streamed + if a.PutChunk? && a.id == id then a.chunk else []
  {
    hide StoresAfter;
  }

  lemma {:induction false} StreamedIsSent(states: seq<State>, actions: seq<Action>, n: nat, id: nat)
    requires IsRun(states, actions) && n < |states| && id in states[n].requests && states[n].requests[id].Uploading?
    ensures states[n].requests[id].up.streamed == Sent(actions[..n], id)
  {
    if n > 0 {
      var a, s := actions[n - 1], states[n - 1];
      assert actions[..n][..n - 1] == actions[..n - 1];
      if a.Reserve? && a.id == id {
        hide StoresAfter, UploadAfter;
      } else {
        OneActionStreams(s, a, id);
        hide Enabled, Next;
        StreamedIsSent(states, actions, n - 1, id);
      }
    }
  }

  /** The finalizing action of slug's upload, before state n. */
  ghost predicate FinalizedAt(states: seq<State>, actions: seq<Action>, n: nat, slug: Slug, k: nat)
    requires IsRun(states, actions) && n < |states|
  {
    && k < n && actions[k].Finalize? && actions[k].updated
    && states[k].requests[actions[k].id].up.rec.slug == slug
  }

  lemma {:induction false} ContentWasStreamed(states: seq<State>, actions: seq<Action>, n: nat, slug: Slug) returns (k: nat)
    requires IsRun(states, actions) && n < |states| && slug in states[n].stores.content
    ensures FinalizedAt(states, actions, n, slug, k)
    ensures states[n].stores.content[slug] == Sent(actions[..k], actions[k].id)
  {
    var a, s := actions[n - 1], states[n - 1];
    if a.Finalize? && a.updated && s.requests[a.id].up.rec.slug == slug {
      k := n - 1;
      StreamedIsSent(states, actions, k, a.id);
    } else {
      k := ContentWasStreamed(states, actions, n - 1, slug);
    }
  }

  /**
   At every moment of every run, a live file's blob is stored under its key, holds exactly the bytes
   its upload streamed, and has the recorded size.
   */
  lemma LiveFilesAreWhole(states: seq<State>, actions: seq<Action>, n: nat, slug: Slug) returns (k: nat)
    requires IsRun(states, actions) && n < |states| && states[n].stores.tables.IsLive(slug)
    ensures IsSlug(slug) && FinalizedAt(states, actions, n, slug, k)
    ensures var rec, sent := states[n].stores.tables.files[slug], Sent(actions[..k], actions[k].id);
            && rec.storageKey == StorageKeyForSlug(slug)
            && rec.storageKey in states[n].stores.blobs
            && states[n].stores.blobs[rec.storageKey] == sent
            && rec.size == |sent|
  {
    RunKeepsInv(states, actions, n);
    assert SettledOk(states[n].stores, slug);
    k := ContentWasStreamed(states, actions, n, slug);
  }

  /** A blob is only ever removed once its file is deleted or before it was live, and only an upload's own is rewritten. */
  lemma BlobsOutliveTheirFiles(s: State, a: Action, slug: Slug)
    requires Inv(s) && Enabled(s, a) && slug in s.stores.tables.files
    ensures var (key, blobs, blobs') := (s.stores.tables.files[slug].storageKey, s.stores.blobs, Next(s, a).stores.blobs);
            key in blobs && (key !in blobs' || blobs'[key] != blobs[key]) ==>
              && !s.stores.tables.IsLive(slug)
              && (s.stores.tables.IsPending(slug) ==> OwnRow(s, a) == Some(slug))
  {
    EveryActionKeepsInv(s, a);
    hide Inv, Enabled, Next, OwnRow;
    if s.stores.tables.IsLive(slug) {
      LiveKeepsBlob(s, a, slug);
    }
    assert s.stores.tables.IsPending(slug) && OwnRow(s, a) != Some(slug) ==> PendingKept(s.stores, Next(s, a).stores, slug);
  }

  lemma LiveKeepsBlob(s: State, a: Action, slug: Slug)
    requires Inv(s) && Enabled(s, a) && s.stores.tables.IsLive(slug)
    ensures var key := s.stores.tables.files[slug].storageKey;
            key in Next(s, a).stores.blobs && Next(s, a).stores.blobs[key] == s.stores.blobs[key]
  {
    if IsUploadAction(a) {
      UploadActionFacts(s, a);
      UploadIsOk(s, a);
      hide Inv, Enabled, Next, StoresOk, UploadOk, StoresAfter;
      UploadsSpareLiveBlobs(s.stores, s.requests[a.id].up, a, slug);
    } else {
      hide StoresAfter, UploadAfter;
      if a.RemoveBlob? {
        assert RequestOk(s.stores, s.requests[a.id]);
      }
    }
  }

  lemma UploadsSpareLiveBlobs(st: Stores, up: Upload, a: Action, slug: Slug)
    requires StoresOk(st) && UploadOk(st, up) && PhaseAllows(up.phase, a) && st.tables.IsLive(slug)
    ensures var key := st.tables.files[slug].storageKey;
            var blobs := StoresAfter(st, up, a).blobs;
            key in blobs && blobs[key] == st.blobs[key]
  {
    UploadRefersToRows(st, up);
    OwnFileIsNotLive(st, up, a, slug);
    hide StoresOk, UploadOk, PhaseAllows, StoresAfter, WasLive, Tables.IsLive;
    LiveKeyIsOnlyItsOwn(st, up.rec, slug);
    if up.replaced.Some? {
      LiveKeyIsOnlyItsOwn(st, up.replaced.value, slug);
    }
    OnlyTouches(st, up, a, st.tables.files[slug].storageKey);
  }

  lemma UploadRefersToRows(st: Stores, up: Upload)
    requires UploadOk(st, up)
    ensures up.rec.slug in st.tables.files && st.tables.files[up.rec.slug].storageKey == up.rec.storageKey
    ensures up.replaced.Some? ==>
              var r := up.replaced.value; r.slug in st.tables.files && st.tables.files[r.slug].storageKey == r.storageKey
  {
    hide Tables.IsPending, Tables.IsLive;
  }

  /** While its upload may still write or drop its blob, a file is not live; nor is the superseded one when its blob goes. */
  lemma OwnFileIsNotLive(st: Stores, up: Upload, a: Action, slug: Slug)
    requires UploadOk(st, up) && PhaseAllows(up.phase, a) && st.tables.IsLive(slug)
    ensures a.PutChunk? || a.PutDone? || a.PutFailed? || a.DiscardBlob? ==> up.rec.slug != slug
    ensures a.Reclaim? && up.replaced.Some? ==> up.replaced.value.slug != slug
  {
    hide WasLive;
  }

  /** The only blobs an action of an upload touches. */
  lemma OnlyTouches(st: Stores, up: Upload, a: Action, key: string)
    requires key in st.blobs
    requires a.PutChunk? || a.PutDone? || a.PutFailed? || a.DiscardBlob? ==> key != up.rec.storageKey
    requires a.Reclaim? && up.replaced.Some? ==> key != up.replaced.value.storageKey
    ensures key in StoresAfter(st, up, a).blobs && StoresAfter(st, up, a).blobs[key] == st.blobs[key]
  {
  }

  lemma LiveKeyIsOnlyItsOwn(st: Stores, rec: FileRecord, slug: Slug)
    requires StoresOk(st) && st.tables.IsLive(slug)
    requires rec.slug in st.tables.files && st.tables.files[rec.slug].storageKey == rec.storageKey
    ensures st.tables.files[slug].storageKey in st.blobs
    ensures rec.storageKey == st.tables.files[slug].storageKey <==> rec.slug == slug
  {
  }

  // ---- One link, one content ----

  /** All successful reads of one short link, at any two moments and from any source, gave the same bytes. */
  lemma OneLinkOneContent(states: seq<State>, actions: seq<Action>, n: nat, i: nat, j: nat)
    requires IsRun(states, actions) && n < |states| && i < |states[n].served| && j < |states[n].served|
    requires states[n].served[i].0 == states[n].served[j].0
    ensures states[n].served[i].1 == states[n].served[j].1
  {
    RunKeepsInv(states, actions, n);
    assert ServedOk(states[n].stores, states[n].served[i]) && ServedOk(states[n].stores, states[n].served[j]);
  }

  /**
   A replica resolves a slug in the tables of some earlier moment i and opens the blob at a later
   moment j: it finds the very bytes the writer had for that slug, or no blob at all.
   */
  lemma ReplicasServeWhatTheWriterHad(states: seq<State>, actions: seq<Action>, i: nat, j: nat, slug: Slug)
    requires IsRun(states, actions) && i <= j < |states| && states[i].stores.tables.IsLive(slug)
    ensures var key := states[i].stores.tables.files[slug].storageKey;
            key in states[i].stores.blobs
            && (key in states[j].stores.blobs ==> states[j].stores.blobs[key] == states[i].stores.blobs[key])
  {
    RunKeepsInv(states, actions, i);
    RunKeepsInv(states, actions, j);
    RowsOnlyAdvance(states, actions, i, j);
    assert SettledOk(states[i].stores, slug) && SettledOk(states[j].stores, slug);
  }

  /** The committed tables at each copy made before moment n, in order. */
  ghost function Copied(states: seq<State>, actions: seq<Action>, n: nat): seq<Tables>
    requires IsRun(states, actions) && n < |states|
  {
    if n == 0 then []
    else Copied(states, actions, n - 1) + if actions[n - 1].TakeSnapshot? then [states[n - 1].stores.tables] else []
  }

  /** What replicas look names, tags and slugs up in are exactly the states the writer had committed at each copy. */
  lemma {:induction false} SnapshotsAreCommittedStates(states: seq<State>, actions: seq<Action>, n: nat)
    requires IsRun(states, actions) && n < |states|
    ensures states[n].snapshots == Copied(states, actions, n)
  {
    hide StoresAfter, UploadAfter, Enabled;
    if n > 0 {
      SnapshotsAreCommittedStates(states, actions, n - 1);
    }
  }

  // ---- Every action is one operation on what clients see ----

  /** The operation an action of an upload amounts to. */
  function UploadEffect(t: Tables, up: Upload, a: Action): Operation {
    match a
    case Finalize(_, modified, updated, _) =>
      if updated && up.rec.slug in t.files then
        Publish(t.files[up.rec.slug].(size := |up.streamed|, modified := modified, pending := false))
      else Nothing
    case Retag(_, works) => if works then Supersede(up.rec.slug, up.ts, SlugOf(up.replaced)) else Nothing
    case _ => Nothing
  }

  /** The operation an action amounts to. */
  ghost function Effect(s: State, a: Action): Operation
    requires Enabled(s, a)
  {
    if IsUploadAction(a) then UploadEffect(s.stores.tables, s.requests[a.id].up, a)
    else
      match a
      case SoftDelete(_, slug) => Remove(slug)
      case AttachTags(id, works) => if works then Supersede(s.requests[id].slug, s.requests[id].ts, None) else Nothing
      case DetachTag(slug, tag) => RemoveTag(slug, tag)
      case _ => Nothing
  }

  lemma UploadActionRefines(st: Stores, up: Upload, a: Action)
    requires StoresOk(st) && UploadOk(st, up) && PhaseAllows(up.phase, a)
    ensures VisibleOf(StoresAfter(st, up, a).tables) == Apply(VisibleOf(st.tables), UploadEffect(st.tables, up, a))
  {
    var t, slug := st.tables, up.rec.slug;
    PhaseFacts(st, up, a);
    hide StoresOk, UploadOk, PhaseAllows, VisibleOf, Tables.WellFormed;
    if a.Finalize? {
      FinalizePublishes(t, slug, |up.streamed|, a.modified);
    } else if a.Retag? {
      ApplyUploadSupersedes(t, slug, up.ts, SlugOf(up.replaced));
    } else if a.DiscardRow? {
      AbandonIsInvisible(t, slug);
    } else if a.DiscardTags? {
      SweepIsInvisible(t, slug);
    }
  }

  lemma PhaseFacts(st: Stores, up: Upload, a: Action)
    requires StoresOk(st) && UploadOk(st, up) && PhaseAllows(up.phase, a)
    ensures st.tables.WellFormed()
    ensures a.Finalize? ==>
              st.tables.IsPending(up.rec.slug) && forall g :: g in st.tables.tags ==> st.tables.tags[g] != up.rec.slug
    ensures a.DiscardRow? || a.DiscardTags? ==> !st.tables.IsLive(up.rec.slug)
  {
    if a.Finalize? {
      PendingIsUnsettled(st, up.rec.slug);
    }
  }

  lemma EffectOfUpload(s: State, a: Action)
    requires Enabled(s, a) && IsUploadAction(a) && a.id in s.requests && s.requests[a.id].Uploading?
    ensures Effect(s, a) == UploadEffect(s.stores.tables, s.requests[a.id].up, a)
  {
  }

  /** What an action other than an upload's does to the tables, and the operation it amounts to. */
  lemma OtherActionFacts(s: State, a: Action)
    requires Enabled(s, a) && !IsUploadAction(a)
    ensures var t, t' := s.stores.tables, Next(s, a).stores.tables;
            match a
            case Reserve(_, rec, _, _) => t' == t.Insert(rec) && rec.slug !in t.files && rec.pending && Effect(s, a) == Nothing
            case SoftDelete(_, slug) => t' == t.SoftDelete(slug) && Effect(s, a) == Remove(slug)
            case AttachTags(id, works) =>
              id in s.requests && s.requests[id].Tagging?
              && var r := s.requests[id];
                 t' == (if works then t.Assign(r.ts, r.slug) else t)
                 && Effect(s, a) == if works then Supersede(r.slug, r.ts, None) else Nothing
            case DetachTag(slug, tag) => t' == t.DropTag(slug, tag) && Effect(s, a) == RemoveTag(slug, tag)
            case _ => t' == t && Effect(s, a) == Nothing
  {
    hide StoresAfter, UploadAfter, UploadEffect, IsSlug, StorageKeyForSlug, Tables.IsAnswerByName;
  }

  lemma InvMeansWellFormed(s: State)
    requires Inv(s)
    ensures s.stores.tables.WellFormed()
  {
    hide RequestsOk, HistoryOk;
  }

  lemma OtherActionRefines(s: State, a: Action)
    requires Inv(s) && Enabled(s, a) && !IsUploadAction(a)
    ensures VisibleOf(Next(s, a).stores.tables) == Apply(VisibleOf(s.stores.tables), Effect(s, a))
  {
    hide Inv, VisibleOf, Tables.WellFormed, Enabled, Next, Effect, IsUploadAction;
    var t := s.stores.tables;
    InvMeansWellFormed(s);
    OtherActionFacts(s, a);
    match a
    case Reserve(_, rec, _, _) => ReserveIsInvisible(t, rec);
    case SoftDelete(_, slug) => SoftDeleteRemoves(t, slug);
    case AttachTags(id, works) =>
      if works {
        AssignIsAssign(t, s.requests[id].ts, s.requests[id].slug);
      }
    case DetachTag(slug, tag) => DropTagRemovesTag(t, slug, tag);
    case _ =>
  }

  /**
   Under every interleaving, each action is invisible to clients or exactly one operation on the live
   files and the tags that resolve to them.
   */
  lemma EveryActionIsOneOperation(s: State, a: Action)
    requires Inv(s) && Enabled(s, a)
    ensures VisibleOf(Next(s, a).stores.tables) == Apply(VisibleOf(s.stores.tables), Effect(s, a))
  {
    if IsUploadAction(a) {
      UploadActionFacts(s, a);
      UploadIsOk(s, a);
      hide *;
      EffectOfUpload(s, a);
      UploadActionRefines(s.stores, s.requests[a.id].up, a);
    } else {
      OtherActionRefines(s, a);
    }
  }

  // ---- An upload is seen at most twice, and not at all when it is discarded ----

  ghost predicate AwaitsRetag(s: State, id: nat, slug: Slug) {
    UploadIn(s, id, WentLive) && s.requests[id].up.rec.slug == slug
  }

  /** How many more times the upload of slug may show. */
  ghost function ShowsLeft(s: State, slug: Slug): nat {
    if slug !in s.stores.tables.files || s.stores.tables.IsPending(slug) then 2
    else if exists id :: AwaitsRetag(s, id, slug) then 1
    else 0
  }

  ghost predicate Shows(s: State, a: Action, slug: Slug)
    requires Enabled(s, a)
  {
    OwnRow(s, a) == Some(slug) && VisibleOf(Next(s, a).stores.tables) != VisibleOf(s.stores.tables)
  }

  /** The number of actions of slug's upload, among the first n, that changed what clients see. */
  ghost function TimesShown(states: seq<State>, actions: seq<Action>, n: nat, slug: Slug): nat
    requires IsRun(states, actions) && n < |states|
  {
    if n == 0 then 0
    else TimesShown(states, actions, n - 1, slug) + if Shows(states[n - 1], actions[n - 1], slug) then 1 else 0
  }

  /** An action of another request neither shows for slug nor lets it show more often. */
  lemma OthersLeaveShows(s: State, a: Action, slug: Slug)
    requires Inv(s) && Enabled(s, a) && OwnRow(s, a) != Some(slug)
    ensures ShowsLeft(Next(s, a), slug) <= ShowsLeft(s, slug)
  {
    var s' := Next(s, a);
    OneActionMovesOneStage(s, a, slug);
    PendingStagesHold(s, a, slug);
    hide Inv, Enabled, Next, AwaitsRetag, OwnRow;
    forall id | AwaitsRetag(s', id, slug) ensures AwaitsRetag(s, id, slug) {
      OnlyOwnFinalizePublishes(s, a, id, slug);
    }
  }

  lemma PendingStagesHold(s: State, a: Action, slug: Slug)
    requires Inv(s) && Enabled(s, a) && OwnRow(s, a) != Some(slug)
    ensures s.stores.tables.IsPending(slug) ==> Next(s, a).stores.tables.IsPending(slug)
    ensures Next(s, a).stores.tables.IsPending(slug) ==> s.stores.tables.IsPending(slug) || slug !in s.stores.tables.files
  {
    hide Inv, Enabled, Next, OwnRow;
    EveryActionKeepsInv(s, a);
    OneActionMovesOneStage(s, a, slug);
    assert s.stores.tables.IsPending(slug) ==> PendingKept(s.stores, Next(s, a).stores, slug);
  }

  lemma OnlyOwnFinalizePublishes(s: State, a: Action, id: nat, slug: Slug)
    requires Enabled(s, a) && !(a.Finalize? && OwnRow(s, a) == Some(slug)) && AwaitsRetag(Next(s, a), id, slug)
    ensures AwaitsRetag(s, id, slug)
  {
  }

  lemma FinalizeSpends(s: State, a: Action, slug: Slug)
    requires Inv(s) && Enabled(s, a) && a.Finalize? && OwnRow(s, a) == Some(slug)
    ensures ShowsLeft(Next(s, a), slug) + (if Effect(s, a).Nothing? then 0 else 1) <= ShowsLeft(s, slug)
    ensures !Effect(s, a).Nothing? ==> slug in Next(s, a).stores.content
  {
    assert RequestOk(s.stores, s.requests[a.id]);
  }

  lemma RetagSpends(s: State, a: Action, slug: Slug)
    requires Inv(s) && Enabled(s, a) && a.Retag? && OwnRow(s, a) == Some(slug)
    ensures ShowsLeft(Next(s, a), slug) + 1 <= ShowsLeft(s, slug)
    ensures slug in Next(s, a).stores.content
  {
    assert RequestOk(s.stores, s.requests[a.id]);
    assert SettledOk(s.stores, slug);
    assert AwaitsRetag(s, a.id, slug);
    RetagEndsWaiting(s, a, slug);
    OneActionMovesOneStage(s, a, slug);
  }

  lemma RetagEndsWaiting(s: State, a: Action, slug: Slug)
    requires RequestsOk(s) && Enabled(s, a) && a.Retag? && OwnRow(s, a) == Some(slug)
    ensures forall id :: !AwaitsRetag(Next(s, a), id, slug)
  {
  }

  lemma MostStepsHaveNoEffect(s: State, a: Action)
    requires Enabled(s, a) && IsUploadAction(a) && !a.Finalize? && !a.Retag?
    ensures Effect(s, a).Nothing?
  {
  }

  lemma OtherStepsSpendNothing(s: State, a: Action, slug: Slug)
    requires Inv(s) && Enabled(s, a) && IsUploadAction(a) && !a.Finalize? && !a.Retag? && OwnRow(s, a) == Some(slug)
    ensures ShowsLeft(Next(s, a), slug) <= ShowsLeft(s, slug) && Effect(s, a).Nothing?
  {
    hide Inv, Enabled, Next, AwaitsRetag, Effect, IsUploadAction, OwnRow;
    MostStepsHaveNoEffect(s, a);
    OneActionMovesOneStage(s, a, slug);
    forall id | AwaitsRetag(Next(s, a), id, slug) ensures AwaitsRetag(s, id, slug) {
      OnlyOwnFinalizePublishes(s, a, id, slug);
    }
  }

  lemma ShowingIsSpent(s: State, a: Action, slug: Slug)
    requires Inv(s) && Enabled(s, a)
    ensures ShowsLeft(Next(s, a), slug) + (if Shows(s, a, slug) then 1 else 0) <= ShowsLeft(s, slug)
    ensures Shows(s, a, slug) ==> slug in Next(s, a).stores.content
  {
    hide Inv, Next, ShowsLeft, VisibleOf, Effect;
    EveryActionIsOneOperation(s, a);
    if OwnRow(s, a) != Some(slug) {
      OthersLeaveShows(s, a, slug);
    } else if a.Finalize? {
      FinalizeSpends(s, a, slug);
    } else if a.Retag? {
      RetagSpends(s, a, slug);
    } else if IsUploadAction(a) {
      OtherStepsSpendNothing(s, a, slug);
    } else {
      ReservingSpendsNothing(s, a);
    }
  }

  lemma ReservingSpendsNothing(s: State, a: Action)
    requires Inv(s) && Enabled(s, a) && a.Reserve?
    ensures Effect(s, a).Nothing? && ShowsLeft(Next(s, a), a.rec.slug) == ShowsLeft(s, a.rec.slug) == 2
  {
  }

  lemma {:induction false} UploadsShowAtMostTwice(states: seq<State>, actions: seq<Action>, n: nat, slug: Slug)
    requires IsRun(states, actions) && n < |states|
    ensures TimesShown(states, actions, n, slug) + ShowsLeft(states[n], slug) <= 2
    ensures TimesShown(states, actions, n, slug) > 0 ==> slug in states[n].stores.content
  {
    hide Inv, Enabled, Next, ShowsLeft, Shows;
    if n > 0 {
      UploadsShowAtMostTwice(states, actions, n - 1, slug);
      RunKeepsInv(states, actions, n - 1);
      ShowingIsSpent(states[n - 1], actions[n - 1], slug);
      OneActionKeepsContent(states[n - 1], actions[n - 1]);
    } else {
      NothingShownYet(slug);
    }
  }

  lemma NothingShownYet(slug: Slug)
    ensures ShowsLeft(INITIAL, slug) == 2
  {
  }

  /** An upload that is being, or has been, discarded never showed at all. */
  lemma DiscardedUploadsNeverShow(states: seq<State>, actions: seq<Action>, n: nat, id: nat)
    requires IsRun(states, actions) && n < |states|
    requires UploadIn(states[n], id, DropBlob) || UploadIn(states[n], id, DropRow)
             || UploadIn(states[n], id, DropTags) || UploadIn(states[n], id, Discarded)
    ensures TimesShown(states, actions, n, states[n].requests[id].up.rec.slug) == 0
  {
    var slug := states[n].requests[id].up.rec.slug;
    RunKeepsInv(states, actions, n);
    UploadsShowAtMostTwice(states, actions, n, slug);
    assert RequestOk(states[n].stores, states[n].requests[id]);
    assert slug in states[n].stores.content ==> SettledOk(states[n].stores, slug);
  }
}
