/**
 Two statements the code's comments make about the tables - tags only describe live files, and at most
 one live file has a name - and exactly which actions of interleaved requests break them. What clients
 see is not affected: a tag on a dead file resolves to nothing.
 */
module Races {
  import opened Wrappers
  import opened Keys
  import opened TagSyntax
  import opened Records
  import opened Protocol
  import opened Guarantees

  ghost predicate TagsNameLiveFiles(t: Tables) {
    forall g | g in t.tags :: t.IsLive(t.tags[g])
  }

  ghost predicate NamesAreUnique(t: Tables) {
    forall x, y | x in t.files && y in t.files && t.IsLive(x) && t.IsLive(y) && t.files[x].displayName == t.files[y].displayName :: x == y
  }

  // ---- Tags on dead files ----

  /** The action attaches tags to a file that died after the request last looked at it. */
  ghost predicate TagsADeadFile(s: State, a: Action)
    requires Enabled(s, a)
  {
    match a
    case Retag(id, works) =>
      var up := s.requests[id].up;
      works && up.ts != [] && !s.stores.tables.IsLive(up.rec.slug)
    case AttachTags(id, works) => works && s.requests[id].ts != [] && !s.stores.tables.IsLive(s.requests[id].slug)
    case _ => false
  }

  lemma AssignTagsLive(t: Tables, ts: seq<Tag>, slug: Slug)
    requires TagsNameLiveFiles(t)
    ensures TagsNameLiveFiles(t.Assign(ts, slug)) <==> ts == [] || t.IsLive(slug)
  {
    var u := t.Assign(ts, slug);
    if ts != [] {
      assert ts[0] in u.tags && u.tags[ts[0]] == slug;
    }
  }

  lemma ApplyUploadTagsLive(t: Tables, slug: Slug, ts: seq<Tag>, replaced: Option<Slug>)
    requires TagsNameLiveFiles(t) && replaced != Some(slug)
    ensures TagsNameLiveFiles(t.ApplyUpload(slug, ts, replaced)) <==> ts == [] || t.IsLive(slug)
  {
    AssignTagsLive(t, ts, slug);
    if replaced.Some? {
      var u := t.ApplyUpload(slug, ts, replaced);
      if ts != [] {
        assert ts[0] in u.tags && u.tags[ts[0]] == slug;
      }
      assert forall g | g in u.tags :: u.tags[g] != replaced.value;
    }
  }

  lemma UploadsTagsStayLive(st: Stores, up: Upload, a: Action)
    requires StoresOk(st) && UploadOk(st, up) && PhaseAllows(up.phase, a) && TagsNameLiveFiles(st.tables)
    ensures TagsNameLiveFiles(StoresAfter(st, up, a).tables) <==>
            !(a.Retag? && a.works && up.ts != [] && !st.tables.IsLive(up.rec.slug))
  {
    if a.Retag? {
      ApplyUploadTagsLive(st.tables, up.rec.slug, up.ts, SlugOf(up.replaced));
    } else if a.Finalize? || a.DiscardRow? {
      PendingIsUnsettled(st, up.rec.slug);
    }
  }

  /** Among all actions, exactly the attaching of tags to a file deleted meanwhile puts a tag on a dead file. */
  lemma TagsStayLiveExactly(s: State, a: Action)
    requires Inv(s) && Enabled(s, a) && TagsNameLiveFiles(s.stores.tables)
    ensures TagsNameLiveFiles(Next(s, a).stores.tables) <==> !TagsADeadFile(s, a)
  {
    if IsUploadAction(a) {
      UploadActionFacts(s, a);
      UploadIsOk(s, a);
      hide Inv, StoresOk, StoresAfter, UploadAfter, TagsNameLiveFiles, Enabled, Next, PhaseAllows, UploadOk;
      UploadsTagsStayLive(s.stores, s.requests[a.id].up, a);
    } else {
      assert s.stores.tables.WellFormed();
      hide Inv, TagsNameLiveFiles, TagsADeadFile, Enabled, Next;
      OtherTagsStayLive(s, a);
    }
  }

  lemma OtherTagsStayLive(s: State, a: Action)
    requires s.stores.tables.WellFormed() && Enabled(s, a) && !IsUploadAction(a) && TagsNameLiveFiles(s.stores.tables)
    ensures TagsNameLiveFiles(Next(s, a).stores.tables) <==> !TagsADeadFile(s, a)
  {
    hide StoresAfter, UploadAfter;
    if a.AttachTags? {
      AssignTagsLive(s.stores.tables, s.requests[a.id].ts, s.requests[a.id].slug);
    }
  }

  // ---- Two live files of one name ----

  /** The action publishes a file while another live file has its name - as every superseding upload does for a moment. */
  ghost predicate PublishesATakenName(s: State, a: Action)
    requires Enabled(s, a)
  {
    var t := s.stores.tables;
    && a.Finalize? && a.updated
    && s.requests[a.id].up.rec.slug in t.files
    && exists x :: x in t.files && t.IsLive(x) && t.files[x].displayName == t.files[s.requests[a.id].up.rec.slug].displayName
  }

  /** No other change of the tables makes a file live or renames one. */
  lemma OnlyFinalizeMakesLive(s: State, a: Action, x: Slug)
    requires Inv(s) && Enabled(s, a) && !a.Finalize?
    ensures x in s.stores.tables.files ==> x in Next(s, a).stores.tables.files
    ensures Next(s, a).stores.tables.IsLive(x) ==> s.stores.tables.IsLive(x) && x in s.stores.tables.files
    ensures x in s.stores.tables.files ==> Next(s, a).stores.tables.files[x].displayName == s.stores.tables.files[x].displayName
  {
    hide Inv, Next, Enabled;
    OneActionMovesOneStage(s, a, x);
    if s.stores.tables.IsPending(x) {
      PendingStaysHidden(s, a, x);
    }
  }

  lemma PendingStaysHidden(s: State, a: Action, x: Slug)
    requires Inv(s) && Enabled(s, a) && !a.Finalize? && s.stores.tables.IsPending(x)
    ensures !Next(s, a).stores.tables.IsLive(x)
  {
    if OwnRow(s, a) == Some(x) && IsUploadAction(a) {
      assert RequestOk(s.stores, s.requests[a.id]);
      PendingIsUnsettled(s.stores, x);
    } else {
      EveryActionKeepsInv(s, a);
      assert OwnRow(s, a) != Some(x);
      assert PendingKept(s.stores, Next(s, a).stores, x);
    }
  }

  lemma FinalizeAndNames(t: Tables, slug: Slug, size: int, modified: string)
    requires t.IsPending(slug) && NamesAreUnique(t)
    ensures NamesAreUnique(t.Finalize(slug, size, modified)) <==>
            !exists x :: x in t.files && t.IsLive(x) && t.files[x].displayName == t.files[slug].displayName
  {
    var u := t.Finalize(slug, size, modified);
    if x :| x in t.files && t.IsLive(x) && t.files[x].displayName == t.files[slug].displayName {
      assert x != slug && u.IsLive(x) && u.IsLive(slug) && x in u.files && slug in u.files;
    }
  }

  /** Among all actions, exactly the publishing of a taken name puts two live files under one name. */
  lemma NamesStayUniqueExactly(s: State, a: Action)
    requires Inv(s) && Enabled(s, a) && NamesAreUnique(s.stores.tables)
    ensures NamesAreUnique(Next(s, a).stores.tables) <==> !PublishesATakenName(s, a)
  {
    var t := s.stores.tables;
    if a.Finalize? {
      var up := s.requests[a.id].up;
      assert RequestOk(s.stores, s.requests[a.id]);
      hide Inv, StoresOk, NamesAreUnique, UploadAfter;
      FinalizeAndNames(t, up.rec.slug, |up.streamed|, a.modified);
    } else {
      hide Inv, Enabled, Next;
      var u := Next(s, a).stores.tables;
      forall x ensures u.IsLive(x) ==> x in t.files && t.IsLive(x) && u.files[x].displayName == t.files[x].displayName {
        OnlyFinalizeMakesLive(s, a, x);
      }
    }
  }

  // ---- Two runs that leave such states behind ----

  ghost predicate Finished(s: State) {
    s.requests == map[]
  }

  /** Performs one more action at the end of a run. */
  lemma Extend(states: seq<State>, actions: seq<Action>, a: Action) returns (states': seq<State>, actions': seq<Action>)
    requires IsRun(states, actions) && Enabled(states[|actions|], a)
    ensures IsRun(states', actions') && states'[|actions'|] == Next(states[|actions|], a)
    ensures states <= states' && actions' == actions + [a]
  {
    states', actions' := states + [Next(states[|actions|], a)], actions + [a];
  }

  function NewRecord(slug: Slug, name: string): FileRecord
    requires |slug| >= 2
  {
    FileRecord(slug, name, StorageKeyForSlug(slug), 0, "", "", false, true)
  }

  /** Brings one more upload of an empty file up to the point where its body is stored. */
  lemma RunToStored(states: seq<State>, actions: seq<Action>, id: nat, slug: Slug, name: string, replaced: Option<FileRecord>)
    returns (states': seq<State>, actions': seq<Action>)
    requires IsRun(states, actions) && IsSlug(slug)
    requires id !in states[|actions|].requests && slug !in states[|actions|].stores.tables.files
    requires states[|actions|].stores.tables.IsAnswerByName(replaced, name)
    ensures IsRun(states', actions') && states <= states' && actions <= actions' && |actions| < |actions'|
    ensures actions'[|actions|] == Reserve(id, NewRecord(slug, name), replaced, false)
    ensures var s, s' := states[|actions|], states'[|actions'|];
            && s'.stores == s.stores.WithTables(s.stores.tables.Insert(NewRecord(slug, name)))
                                    .WriteBlob(StorageKeyForSlug(slug), [])
            && s'.requests == s.requests[id := Uploading(Upload(NewRecord(slug, name), Stored, [], [], replaced))]
  {
    hide IsRun;
    states', actions' := Extend(states, actions, Reserve(id, NewRecord(slug, name), replaced, false));
    states', actions' := Extend(states', actions', PutDone(id));
  }

  /** Lets it carry on, without tags, to the point where it is cleared to finalize. */
  lemma RunToCleared(states: seq<State>, actions: seq<Action>, id: nat, slug: Slug, name: string, replaced: Option<FileRecord>)
    returns (states': seq<State>, actions': seq<Action>)
    requires IsRun(states, actions) && IsSlug(slug)
    requires id !in states[|actions|].requests && slug !in states[|actions|].stores.tables.files
    requires states[|actions|].stores.tables.IsAnswerByName(replaced, name)
    ensures IsRun(states', actions') && states <= states' && actions <= actions' && |actions| < |actions'|
    ensures actions'[|actions|] == Reserve(id, NewRecord(slug, name), replaced, false)
    ensures var s, s' := states[|actions|], states'[|actions'|];
            && s'.stores == s.stores.WithTables(s.stores.tables.Insert(NewRecord(slug, name)))
                                    .WriteBlob(StorageKeyForSlug(slug), [])
            && s'.requests == s.requests[id := Uploading(Upload(NewRecord(slug, name), Cleared, [], [], replaced))]
  {
    hide IsRun;
    states', actions' := RunToStored(states, actions, id, slug, name, replaced);
    states', actions' := Extend(states', actions', Clear(id, []));
  }

  /** Lets a cleared upload that supersedes nothing and carries no tags run to its end. */
  lemma RunToEnd(states: seq<State>, actions: seq<Action>, id: nat)
    returns (states': seq<State>, actions': seq<Action>)
    requires IsRun(states, actions) && UploadIn(states[|actions|], id, Cleared)
    requires states[|actions|].requests[id].up.ts == [] && states[|actions|].requests[id].up.replaced == None
    ensures IsRun(states', actions') && states <= states' && actions <= actions' && |actions| < |actions'|
    ensures var s, s' := states[|actions|], states'[|actions'|];
            && s'.stores == s.stores.Publish(s.requests[id].up.rec.slug, s.requests[id].up.streamed, "")
            && s'.requests == s.requests - {id}
  {
    var s := states[|actions|];
    states', actions' := Extend(states, actions, Finalize(id, "", true, true));
    var t := states'[|actions'|].stores.tables;
    states', actions' := Extend(states', actions', Retag(id, true));
    assert t.Assign([], s.requests[id].up.rec.slug) == t;
    states', actions' := Extend(states', actions', Reclaim(id, true));
    states', actions' := Extend(states', actions', Stop(id));
    assert s.requests[id := Uploading(s.requests[id].up)] - {id} == s.requests - {id};
  }

  /** Two uploads of one name, each reserved before the other went live, both end as live files of that name. */
  lemma TwoUploadsOneName() returns (states: seq<State>, actions: seq<Action>)
    ensures IsRun(states, actions) && Finished(states[|actions|])
    ensures !NamesAreUnique(states[|actions|].stores.tables)
  {
    hide Next, Enabled, IsRun;
    states, actions := FirstRun();
    states, actions := RunToCleared(states, actions, 0, "aaaaa", "report", None);
    states, actions := RunToCleared(states, actions, 1, "bbbbb", "report", None);
    states, actions := RunToEnd(states, actions, 0);
    states, actions := RunToEnd(states, actions, 1);
    var s := states[|actions|];
    assert s.requests == map[];
    assert "aaaaa" != "bbbbb";
    assert s.stores.tables.IsLive("aaaaa") && s.stores.tables.IsLive("bbbbb");
  }

  lemma FirstRun() returns (states: seq<State>, actions: seq<Action>)
    ensures IsRun(states, actions) && states == [INITIAL] && actions == []
  {
    states, actions := [INITIAL], [];
  }

  /** A tag request that saw its file live attaches after the file's deletion: the tag row stays on a dead file. */
  lemma TagOnADeletedFile(tag: Tag) returns (states: seq<State>, actions: seq<Action>)
    ensures IsRun(states, actions) && Finished(states[|actions|])
    ensures !TagsNameLiveFiles(states[|actions|].stores.tables)
  {
    hide Next, Enabled, IsRun;
    states, actions := LiveFileRun("aaaaa", "report");
    states, actions := TagAfterDelete(states, actions, "aaaaa", tag);
  }

  lemma TagAfterDelete(states: seq<State>, actions: seq<Action>, slug: Slug, tag: Tag)
    returns (states': seq<State>, actions': seq<Action>)
    requires IsRun(states, actions) && Finished(states[|actions|]) && states[|actions|].stores.tables.IsLive(slug)
    ensures IsRun(states', actions') && Finished(states'[|actions'|])
    ensures !TagsNameLiveFiles(states'[|actions'|].stores.tables)
  {
    hide Next, Enabled, IsRun;
    states', actions' := CheckThenDelete(states, actions, slug, tag);
    states', actions' := AttachLate(states', actions', slug, tag);
  }

  lemma CheckThenDelete(states: seq<State>, actions: seq<Action>, slug: Slug, tag: Tag)
    returns (states': seq<State>, actions': seq<Action>)
    requires IsRun(states, actions) && Finished(states[|actions|]) && states[|actions|].stores.tables.IsLive(slug)
    ensures IsRun(states', actions')
    ensures var s := states'[|actions'|];
            && s.requests.Keys == {0, 1} && s.requests[0] == Tagging(slug, [tag]) && s.requests[1].Deleting?
            && slug in s.stores.tables.files && s.stores.tables.files[slug].deleted
  {
    hide IsRun;
    states', actions' := Extend(states, actions, CheckTaggable(0, slug, [tag]));
    states', actions' := Extend(states', actions', SoftDelete(1, slug));
  }

  lemma AttachLate(states: seq<State>, actions: seq<Action>, slug: Slug, tag: Tag)
    returns (states': seq<State>, actions': seq<Action>)
    requires IsRun(states, actions)
    requires var s := states[|actions|];
             && s.requests.Keys == {0, 1} && s.requests[0] == Tagging(slug, [tag]) && s.requests[1].Deleting?
             && slug in s.stores.tables.files && s.stores.tables.files[slug].deleted
    ensures IsRun(states', actions') && Finished(states'[|actions'|])
    ensures !TagsNameLiveFiles(states'[|actions'|].stores.tables)
  {
    hide IsRun;
    states', actions' := Extend(states, actions, AttachTags(0, true));
    var t := states'[|actions'|].stores.tables;
    assert tag in t.tags && t.tags[tag] == slug && t.files[slug].deleted;
    states', actions' := Extend(states', actions', RemoveBlob(1, true));
    assert states'[|actions'|].requests == map[];
  }

  lemma LiveFileRun(slug: Slug, name: string) returns (states: seq<State>, actions: seq<Action>)
    requires IsSlug(slug)
    ensures IsRun(states, actions) && Finished(states[|actions|])
    ensures var t := states[|actions|].stores.tables;
            t.IsLive(slug) && t.files.Keys == {slug} && t.files[slug].displayName == name && t.tags == map[]
  {
    hide Next, Enabled, IsRun;
    states, actions := FirstRun();
    states, actions := RunToCleared(states, actions, 0, slug, name, None);
    states, actions := RunToEnd(states, actions, 0);
    assert states[|actions|].requests == map[];
  }
}
