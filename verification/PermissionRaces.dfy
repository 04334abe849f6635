/**
 Permissions are decided on what a request sees, and its effects come later. These are the actions of other
 requests by which an effect comes to cost more than was asked for.
 */
module PermissionRaces {
  import opened Wrappers
  import opened TagSyntax
  import opened Keys
  import opened Records
  import opened Protocol
  import opened Guarantees
  import opened Races
  import opened Effects
  import opened Uploads

  // ---- Taking tags off files ----

  /**
   Giving ts to slug and sweeping the superseded file, as the closing transaction of an upload would now do,
   takes some tag off the file it is on. A tag add is the same without a superseded file.
   */
  ghost predicate WouldTake(t: Tables, ts: seq<Tag>, slug: Slug, replaced: Option<Slug>) {
    TakesTag(t, t.ApplyUpload(slug, ts, replaced))
  }

  /** g on target is taken off it: the request wants g for another file, or target is to be swept. */
  predicate Concerns(g: Tag, target: Slug, ts: seq<Tag>, slug: Slug, replaced: Option<Slug>) {
    (g in ts && target != slug) || replaced == Some(target)
  }

  /** Which tags that are, read off the tables before the transaction. */
  ghost predicate TakesAway(t: Tables, ts: seq<Tag>, slug: Slug, replaced: Option<Slug>) {
    exists g :: g in t.tags && Concerns(g, t.tags[g], ts, slug, replaced)
  }

  lemma WouldTakeWhat(t: Tables, ts: seq<Tag>, slug: Slug, replaced: Option<Slug>)
    requires replaced != Some(slug)
    ensures WouldTake(t, ts, slug, replaced) <==> TakesAway(t, ts, slug, replaced)
  {
    var u := t.ApplyUpload(slug, ts, replaced);
    forall g | g in t.tags
      ensures (g !in u.tags || u.tags[g] != t.tags[g]) <==> Concerns(g, t.tags[g], ts, slug, replaced)
    {
    }
  }

  /** A tag add asks for tag:remove exactly when attaching the tags now takes one off a file. */
  lemma AddDemandIsExact(t: Tables, ts: seq<Tag>, slug: Slug)
    ensures TakesFromOthers(t, ts, slug) <==> WouldTake(t, ts, slug, None)
  {
    WouldTakeWhat(t, ts, slug, None);
    hide WouldTake;
    if g :| g in ts && g in t.tags && t.tags[g] != slug {
      assert Concerns(g, t.tags[g], ts, slug, None);
    }
  }

  /** Before an upload goes live, its tags are made to cost tag:remove exactly when applying them now takes one off a file. */
  lemma DemandIsExact(st: Stores, ts: seq<Tag>, slug: Slug, replaced: Option<FileRecord>)
    requires StoresOk(st) && st.tables.IsPending(slug) && SlugOf(replaced) != Some(slug)
    ensures DemandsForTags(st.tables, ts, replaced, TagRemove) <==> WouldTake(st.tables, ts, slug, SlugOf(replaced))
  {
    hide WouldTake, StoresOk, Tables.IsPending;
    PendingIsUnsettled(st, slug);
    WouldTakeWhat(st.tables, ts, slug, SlugOf(replaced));
    DemandReads(st.tables, ts, slug, replaced);
  }

  lemma DemandReads(t: Tables, ts: seq<Tag>, slug: Slug, replaced: Option<FileRecord>)
    requires forall g | g in t.tags :: t.tags[g] != slug
    ensures DemandsForTags(t, ts, replaced, TagRemove) <==> TakesAway(t, ts, slug, SlugOf(replaced))
  {
    if g :| g in ts && g in t.tags {
      assert Concerns(g, t.tags[g], ts, slug, SlugOf(replaced));
    }
    if replaced.Some? && t.TagsOf(replaced.value.slug) != {} {
      var g :| g in t.TagsOf(replaced.value.slug);
      assert Concerns(g, t.tags[g], ts, slug, SlugOf(replaced));
    }
    if TakesAway(t, ts, slug, SlugOf(replaced)) {
      var g :| g in t.tags && Concerns(g, t.tags[g], ts, slug, SlugOf(replaced));
      assert replaced.Some? && t.tags[g] == replaced.value.slug ==> g in t.TagsOf(replaced.value.slug);
    }
  }

  /** g is on target. */
  predicate IsOn(t: Tables, g: Tag, target: Slug) {
    g in t.tags && t.tags[g] == target
  }

  /** The action attaches g to target. */
  ghost predicate Attaches(s: State, a: Action, g: Tag, target: Slug)
    requires Enabled(s, a)
  {
    match a
    case Retag(id, works) => works && g in s.requests[id].up.ts && target == s.requests[id].up.rec.slug
    case AttachTags(id, works) => works && g in s.requests[id].ts && target == s.requests[id].slug
    case _ => false
  }

  lemma UploadsAttach(st: Stores, up: Upload, a: Action, g: Tag, target: Slug)
    requires SlugOf(up.replaced) != Some(up.rec.slug) && !IsOn(st.tables, g, target)
    ensures IsOn(StoresAfter(st, up, a).tables, g, target) <==>
            a.Retag? && a.works && g in up.ts && target == up.rec.slug
  {
  }

  lemma SupersedesAnother(st: Stores, up: Upload)
    requires UploadOk(st, up)
    ensures SlugOf(up.replaced) != Some(up.rec.slug)
  {
    hide Tables.IsLive, Tables.IsPending, WasLive;
  }

  /** Among all actions, exactly attaching it there puts a tag on a file it was not on. */
  lemma OnlyAttachingMovesTags(s: State, a: Action, g: Tag, target: Slug)
    requires Inv(s) && Enabled(s, a) && !IsOn(s.stores.tables, g, target)
    ensures IsOn(Next(s, a).stores.tables, g, target) <==> Attaches(s, a, g, target)
  {
    hide Inv, Enabled, Next, StoresOk, UploadOk, PhaseAllows, StoresAfter, UploadAfter, Effect, IsOn;
    if IsUploadAction(a) {
      UploadActionFacts(s, a);
      UploadIsOk(s, a);
      SupersedesAnother(s.stores, s.requests[a.id].up);
      UploadsAttach(s.stores, s.requests[a.id].up, a, g, target);
    } else {
      OtherActionFacts(s, a);
      OthersAttach(s, a, g, target);
    }
  }

  lemma OthersAttach(s: State, a: Action, g: Tag, target: Slug)
    requires Enabled(s, a) && !IsUploadAction(a) && !IsOn(s.stores.tables, g, target)
    ensures IsOn(Next(s, a).stores.tables, g, target) <==> Attaches(s, a, g, target)
  {
    hide StoresAfter, UploadAfter, IsSlug, StorageKeyForSlug, Tables.IsAnswerByName;
  }

  /** A tag that is on a file now, and was not at moment i, was attached to it in between. */
  lemma {:induction false} WhoAttached(states: seq<State>, actions: seq<Action>, i: nat, j: nat, g: Tag, target: Slug) returns (k: nat)
    requires IsRun(states, actions) && i <= j < |states|
    requires !IsOn(states[i].stores.tables, g, target) && IsOn(states[j].stores.tables, g, target)
    ensures i <= k < j && Attaches(states[k], actions[k], g, target)
  {
    hide Inv, Next, IsOn, Attaches;
    k := j - 1;
    if IsOn(states[k].stores.tables, g, target) {
      k := WhoAttached(states, actions, i, k, g, target);
    } else {
      RunKeepsInv(states, actions, k);
      OnlyAttachingMovesTags(states[k], actions[k], g, target);
    }
  }

  /** Between moments i and j some action put a tag in the request's way that is still there at j. */
  ghost predicate GotInTheWay(states: seq<State>, actions: seq<Action>, i: nat, j: nat,
                              ts: seq<Tag>, slug: Slug, replaced: Option<Slug>)
    requires IsRun(states, actions) && i <= j < |states|
  {
    exists k, g, target :: i <= k < j && Attaches(states[k], actions[k], g, target)
                           && Concerns(g, target, ts, slug, replaced) && IsOn(states[j].stores.tables, g, target)
  }

  /**
   A request whose tags took nothing off any file at moment i, when it was not asked for tag:remove, takes
   something at moment j if and only if meanwhile an action attached one of them to another file, or any tag
   to the superseded file, and it is still there.
   */
  lemma UnpaidTagRemoval(states: seq<State>, actions: seq<Action>, i: nat, j: nat,
                         ts: seq<Tag>, slug: Slug, replaced: Option<Slug>)
    requires IsRun(states, actions) && i <= j < |states| && replaced != Some(slug)
    requires !WouldTake(states[i].stores.tables, ts, slug, replaced)
    ensures WouldTake(states[j].stores.tables, ts, slug, replaced) <==> GotInTheWay(states, actions, i, j, ts, slug, replaced)
  {
    var (t, u) := (states[i].stores.tables, states[j].stores.tables);
    WouldTakeWhat(t, ts, slug, replaced);
    WouldTakeWhat(u, ts, slug, replaced);
    hide Inv, Next, Attaches, WouldTake, IsRun, Concerns;
    if TakesAway(u, ts, slug, replaced) {
      var g :| g in u.tags && Concerns(g, u.tags[g], ts, slug, replaced);
      var k := WhoAttached(states, actions, i, j, g, u.tags[g]);
      assert IsOn(u, g, u.tags[g]);
    }
    if GotInTheWay(states, actions, i, j, ts, slug, replaced) {
      var k, g, target :| i <= k < j && Attaches(states[k], actions[k], g, target)
                          && Concerns(g, target, ts, slug, replaced) && IsOn(u, g, target);
      assert g in u.tags && Concerns(g, u.tags[g], ts, slug, replaced);
    }
  }

  /**
   A run in which it happens: at moment i an upload is cleared with a tag that is on no file; another request
   puts the tag on a file; at moment j the upload's closing transaction takes it off that file.
   */
  lemma TagTakenWithoutAsking(tag: Tag) returns (states: seq<State>, actions: seq<Action>, i: nat, j: nat)
    ensures IsRun(states, actions) && i < j < |actions|
    ensures actions[i] == Clear(0, [tag]) && actions[j] == Retag(0, true)
    ensures UploadIn(states[i], 0, Stored)
            && !WouldTake(states[i].stores.tables, [tag], states[i].requests[0].up.rec.slug, None)
            && states[i].requests[0].up.replaced == None
    ensures TakesTag(states[j].stores.tables, states[j + 1].stores.tables)
  {
    hide Next, Enabled, IsRun, WouldTake, TakesTag, StorageKeyForSlug, Tables.IsLive;
    states, actions := StoredBesideLive();
    i := |actions|;
    RunLength(states, actions);
    ghost var early := states;
    assert !WouldTake(states[i].stores.tables, [tag], "bbbbb", None) by {
      WouldTakeWhat(states[i].stores.tables, [tag], "bbbbb", None);
    }
    states, actions := AttachMeanwhile(states, actions, "aaaaa", tag);
    assert states[i] == early[i];
    j := |actions| + 1;
    states, actions := FinishTagged(states, actions, tag);
  }

  /** One file is live, no file has a tag, and an upload of another name has stored its body. */
  lemma StoredBesideLive() returns (states: seq<State>, actions: seq<Action>)
    ensures IsRun(states, actions)
    ensures var s := states[|actions|];
            && s.stores.tables.IsLive("aaaaa") && s.stores.tables.tags == map[] && s.requests.Keys == {0}
            && s.requests[0] == Uploading(Upload(NewRecord("bbbbb", "other"), Stored, [], [], None))
  {
    hide Next, Enabled, IsRun;
    states, actions := LiveFileRun("aaaaa", "report");
    states, actions := RunToStored(states, actions, 0, "bbbbb", "other", None);
  }

  lemma AttachMeanwhile(states: seq<State>, actions: seq<Action>, file: Slug, tag: Tag)
    returns (states': seq<State>, actions': seq<Action>)
    requires IsRun(states, actions) && UploadIn(states[|actions|], 0, Stored) && 1 !in states[|actions|].requests
    requires states[|actions|].stores.tables.IsLive(file)
    ensures IsRun(states', actions') && states <= states' && actions <= actions' && |actions| < |actions'|
    ensures actions'[|actions|] == Clear(0, [tag])
    ensures var (s, s') := (states[|actions|], states'[|actions'|]);
            && s'.stores == s.stores.WithTables(s.stores.tables.Assign([tag], file))
            && s'.requests == s.requests[0 := Uploading(s.requests[0].up.(phase := Cleared, ts := [tag]))]
  {
    RunLength(states, actions);
    hide IsRun;
    states', actions' := Extend(states, actions, Clear(0, [tag]));
    states', actions' := Extend(states', actions', CheckTaggable(1, file, [tag]));
    states', actions' := Extend(states', actions', AttachTags(1, true));
    assert states'[|actions'|].requests ==
           states[|actions|].requests[0 := Uploading(states[|actions|].requests[0].up.(phase := Cleared, ts := [tag]))];
  }

  lemma FinishTagged(states: seq<State>, actions: seq<Action>, tag: Tag)
    returns (states': seq<State>, actions': seq<Action>)
    requires IsRun(states, actions) && UploadIn(states[|actions|], 0, Cleared)
    requires var (s, up) := (states[|actions|], states[|actions|].requests[0].up);
             && up.ts == [tag] && up.replaced == None
             && tag in s.stores.tables.tags && s.stores.tables.tags[tag] != up.rec.slug
    ensures IsRun(states', actions') && states <= states' && actions <= actions' && |actions'| == |actions| + 2
    ensures actions'[|actions| + 1] == Retag(0, true)
    ensures TakesTag(states'[|actions| + 1].stores.tables, states'[|actions| + 2].stores.tables)
  {
    hide IsRun, Next, Enabled, TakesTag, UploadIn;
    states', actions' := FinalizeNow(states, actions);
    ghost var late := states';
    RunLength(states', actions');
    states', actions' := RetagNow(states', actions', tag);
    assert states'[|actions| + 1] == late[|actions| + 1];
  }

  lemma FinalizeNow(states: seq<State>, actions: seq<Action>) returns (states': seq<State>, actions': seq<Action>)
    requires IsRun(states, actions) && UploadIn(states[|actions|], 0, Cleared)
    ensures IsRun(states', actions') && states <= states' && actions <= actions' && |actions'| == |actions| + 1
    ensures var (s, s') := (states[|actions|], states'[|actions| + 1]);
            && UploadIn(s', 0, WentLive) && s'.requests[0].up == s.requests[0].up.(phase := WentLive)
            && s'.stores.tables.tags == s.stores.tables.tags
  {
    hide IsRun;
    states', actions' := Extend(states, actions, Finalize(0, "", true, true));
  }

  lemma RetagNow(states: seq<State>, actions: seq<Action>, tag: Tag) returns (states': seq<State>, actions': seq<Action>)
    requires IsRun(states, actions) && UploadIn(states[|actions|], 0, WentLive)
    requires var (s, up) := (states[|actions|], states[|actions|].requests[0].up);
             && up.ts == [tag] && up.replaced == None
             && tag in s.stores.tables.tags && s.stores.tables.tags[tag] != up.rec.slug
    ensures IsRun(states', actions') && states <= states' && actions' == actions + [Retag(0, true)]
    ensures TakesTag(states[|actions|].stores.tables, states'[|actions'|].stores.tables)
  {
    ghost var t := states[|actions|].stores.tables;
    hide IsRun;
    states', actions' := Extend(states, actions, Retag(0, true));
    assert tag in t.tags;
  }

  lemma RunLength(states: seq<State>, actions: seq<Action>)
    requires IsRun(states, actions)
    ensures |states| == |actions| + 1
  {
  }

  // ---- Retiring files ----

  /** The action puts a file of this name live. */
  ghost predicate PublishesName(s: State, a: Action, name: string)
    requires Enabled(s, a)
  {
    && a.Finalize? && a.updated
    && s.requests[a.id].up.rec.slug in s.stores.tables.files
    && s.stores.tables.files[s.requests[a.id].up.rec.slug].displayName == name
  }

  lemma FinalizeTakesName(t: Tables, slug: Slug, size: int, modified: string, name: string)
    requires t.IsPending(slug) && !NameTaken(t, name)
    ensures NameTaken(t.Finalize(slug, size, modified), name) <==> t.files[slug].displayName == name
  {
    var u := t.Finalize(slug, size, modified);
    if t.files[slug].displayName == name {
      assert slug in u.files && u.IsLive(slug);
    }
  }

  /** Among all actions, exactly going live under the name makes an upload of a free name supersede a file. */
  lemma OnlyFinalizeTakesName(s: State, a: Action, name: string)
    requires Inv(s) && Enabled(s, a) && !NameTaken(s.stores.tables, name)
    ensures NameTaken(Next(s, a).stores.tables, name) <==> PublishesName(s, a, name)
  {
    if a.Finalize? {
      UploadActionFacts(s, a);
      UploadIsOk(s, a);
      var up := s.requests[a.id].up;
      assert s.stores.tables.IsPending(up.rec.slug);
      hide Inv, StoresOk, UploadOk, Next, Enabled, NameTaken;
      FinalizeTakesName(s.stores.tables, up.rec.slug, |up.streamed|, a.modified, name);
    } else {
      hide Inv, Next, Enabled;
      forall x | Next(s, a).stores.tables.IsLive(x) ensures Next(s, a).stores.tables.files[x].displayName != name {
        OnlyFinalizeMakesLive(s, a, x);
      }
    }
  }

  /** The action puts this file live. */
  ghost predicate Publishes(s: State, a: Action, x: Slug)
    requires Enabled(s, a)
  {
    a.Finalize? && a.updated && s.requests[a.id].up.rec.slug == x
  }

  /** A file that is live now, and was not at moment i, was put live in between. */
  lemma {:induction false} WhoPublished(states: seq<State>, actions: seq<Action>, i: nat, j: nat, x: Slug) returns (k: nat)
    requires IsRun(states, actions) && i <= j < |states|
    requires !states[i].stores.tables.IsLive(x) && states[j].stores.tables.IsLive(x)
    ensures i <= k < j && Publishes(states[k], actions[k], x)
  {
    hide Inv, Next, Publishes, Tables.IsLive;
    k := j - 1;
    if states[k].stores.tables.IsLive(x) {
      k := WhoPublished(states, actions, i, k, x);
    } else {
      RunKeepsInv(states, actions, k);
      OnlyPublishingMakesLive(states[k], actions[k], x);
    }
  }

  lemma OnlyPublishingMakesLive(s: State, a: Action, x: Slug)
    requires Inv(s) && Enabled(s, a) && !s.stores.tables.IsLive(x) && Next(s, a).stores.tables.IsLive(x)
    ensures Publishes(s, a, x)
  {
    if a.Finalize? {
      UploadActionFacts(s, a);
      hide Inv, Next, Enabled;
    } else {
      hide Inv, Next, Enabled;
      OnlyFinalizeMakesLive(s, a, x);
    }
  }

  /** Between moments i and j some file was put live that is live under this name at j. */
  ghost predicate CameLive(states: seq<State>, actions: seq<Action>, i: nat, j: nat, name: string)
    requires IsRun(states, actions) && i <= j < |states|
  {
    exists k, x :: i <= k < j && Publishes(states[k], actions[k], x)
                   && states[j].stores.tables.IsLive(x) && states[j].stores.tables.files[x].displayName == name
  }

  /**
   An upload asks for file:delete if its name is live when it checks, at moment i, and supersedes a live file
   of that name if there is one when it reserves, at moment j. It supersedes one without having been asked
   if and only if a file of the name went live between and still is.
   */
  lemma UnpaidRetirement(states: seq<State>, actions: seq<Action>, i: nat, j: nat, name: string)
    requires IsRun(states, actions) && i <= j < |states| && !NameTaken(states[i].stores.tables, name)
    ensures NameTaken(states[j].stores.tables, name) <==> CameLive(states, actions, i, j, name)
  {
    var (t, u) := (states[i].stores.tables, states[j].stores.tables);
    RowsOnlyAdvance(states, actions, i, j);
    hide IsRun, Publishes;
    if NameTaken(u, name) {
      var x :| x in u.files && u.IsLive(x) && u.files[x].displayName == name;
      assert !t.IsLive(x);
      var k := WhoPublished(states, actions, i, j, x);
    }
  }

  /**
   A run in which it happens: at moment i the name is free, so an upload that checks then is not asked for
   file:delete; another upload of the name goes live; at moment m the first one reserves, superseding that
   file, which it has retired in the end.
   */
  lemma RetiredWithoutAsking() returns (states: seq<State>, actions: seq<Action>, i: nat, m: nat)
    ensures IsRun(states, actions) && i < m < |actions| && !NameTaken(states[i].stores.tables, "report")
    ensures actions[m].Reserve? && actions[m].rec.displayName == "report" && actions[m].replaced.Some?
    ensures states[m].stores.tables.IsLive(actions[m].replaced.value.slug)
    ensures !states[|actions|].stores.tables.IsLive(actions[m].replaced.value.slug)
  {
    hide Next, Enabled, IsRun;
    states, actions := FirstRun();
    states, actions := RunToCleared(states, actions, 0, "aaaaa", "report", None);
    i := |actions|;
    RunLength(states, actions);
    ghost var early := states;
    states, actions := RunToEnd(states, actions, 0);
    m := |actions|;
    assert i < m && states[i] == early[i];
    states, actions := SupersedeRun(states, actions, "aaaaa", "bbbbb", "report");
  }

  /** An upload that supersedes old and runs until it has retired it. */
  lemma SupersedeRun(states: seq<State>, actions: seq<Action>, live: Slug, slug: Slug, name: string)
    returns (states': seq<State>, actions': seq<Action>)
    requires IsRun(states, actions) && Finished(states[|actions|]) && IsSlug(slug) && slug != live
    requires var t := states[|actions|].stores.tables;
             slug !in t.files && t.IsLive(live) && t.files[live].slug == live && t.files[live].displayName == name
    ensures IsRun(states', actions') && states <= states' && actions <= actions' && |actions| < |actions'|
    ensures var file := states[|actions|].stores.tables.files[live];
            actions'[|actions|] == Reserve(0, NewRecord(slug, name), Some(file), false)
    ensures !states'[|actions'|].stores.tables.IsLive(live)
  {
    var file := states[|actions|].stores.tables.files[live];
    hide Next, Enabled, IsRun;
    states', actions' := RunToCleared(states, actions, 0, slug, name, Some(file));
    states', actions' := RetireRun(states', actions', live);
  }

  lemma RetireRun(states: seq<State>, actions: seq<Action>, live: Slug)
    returns (states': seq<State>, actions': seq<Action>)
    requires IsRun(states, actions) && UploadIn(states[|actions|], 0, Cleared)
    requires var up := states[|actions|].requests[0].up;
             && up.replaced.Some? && up.replaced.value.slug == live != up.rec.slug
             && live in states[|actions|].stores.tables.files
    ensures IsRun(states', actions') && states <= states' && actions <= actions'
    ensures !states'[|actions'|].stores.tables.IsLive(live)
  {
    hide IsRun;
    states', actions' := Extend(states, actions, Finalize(0, "", true, true));
    states', actions' := Extend(states', actions', Retag(0, true));
  }
}
