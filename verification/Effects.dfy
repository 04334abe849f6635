/**
 What requests change when they are handled one at a time, and the permissions each change costs. The
 handlers compute the permissions; these lemmas compare them with the change itself.
 */
module Effects {
  import opened Wrappers
  import opened TagSyntax
  import opened Records
  import opened Catalogue
  import opened Races

  datatype Permission = FileCreate | FileDelete | TagAdd | TagRemove

  /** p is required and not held, and all that is required before it is held. */
  ghost predicate FirstLacked(required: seq<Permission>, held: set<Permission>, p: Permission) {
    exists i :: 0 <= i < |required| && required[i] == p && p !in held && forall j :: 0 <= j < i ==> required[j] in held
  }

  lemma FirstLackedShifts(required: seq<Permission>, held: set<Permission>, p: Permission)
    requires required != [] && required[0] in held && FirstLacked(required[1..], held, p)
    ensures FirstLacked(required, held, p)
  {
    var i :| 0 <= i < |required| - 1 && required[1..][i] == p && forall j :: 0 <= j < i ==> required[1..][j] in held;
    forall j | 0 <= j < i + 1 ensures required[j] in held {
      assert j > 0 ==> required[j] == required[1..][j - 1];
    }
    assert required[i + 1] == p;
  }

  /** The first of the required permissions the credential lacks. */
  function FirstMissingPermission(required: seq<Permission>, held: set<Permission>): (missing: Option<Permission>)
    ensures missing == None <==> forall p :: p in required ==> p in held
    ensures missing.Some? ==> missing.value in required && FirstLacked(required, held, missing.value)
  {
    if required == [] then None
    else if required[0] !in held then Some(required[0])
    else
      var rest := FirstMissingPermission(required[1..], held);
      assert rest.Some? ==> FirstLacked(required, held, rest.value) by {
        if rest.Some? {
          FirstLackedShifts(required, held, rest.value);
        }
      }
      rest
  }

  datatype Reason =
    | Forbidden(missing: Permission)
    | ReadOnlyInstance
    | AppendOnlyInstance
    | NoTags
    | BadTag(error: TagError)
    | NoSuchFile
    | NotAttached
    | OversizedBody
    | BrokenForm
    | StorageFailed
    | DatabaseFailed

  /** The tables after a complete upload of rec, superseding the given file. */
  function UploadResult(t: Tables, rec: FileRecord, ts: seq<Tag>, replaced: Option<Slug>): Tables {
    t.Insert(rec).ApplyUpload(rec.slug, ts, replaced)
  }

  /** Some tag was attached to a file it was not on. */
  ghost predicate AttachesTag(t: Tables, u: Tables) {
    exists g :: g in u.tags && (g !in t.tags || t.tags[g] != u.tags[g])
  }

  /** Some tag was taken off the file it was on, moved or dropped. */
  ghost predicate TakesTag(t: Tables, u: Tables) {
    exists g :: g in t.tags && (g !in u.tags || u.tags[g] != t.tags[g])
  }

  /** Some live file is live no more. */
  ghost predicate RetiresFile(t: Tables, u: Tables) {
    exists x :: x in t.files && t.IsLive(x) && !u.IsLive(x)
  }

  /** What uploadTagPermissions decides, for tags not yet attached to the upload's own fresh slug. */
  ghost predicate NeedsTagRemove(t: Tables, ts: seq<Tag>, replaced: Option<Slug>) {
    (exists g :: g in ts && g in t.tags) || (replaced.Some? && t.TagsOf(replaced.value) != {})
  }

  /** The permissions an upload demands are exactly those of the effects it has. */
  lemma UploadsCostTheirEffects(t: Tables, rec: FileRecord, ts: seq<Tag>, replaced: Option<Slug>)
    requires t.WellFormed() && rec.slug !in t.files && !rec.pending && !rec.deleted
    requires replaced.Some? ==> t.IsLive(replaced.value)
    ensures var u := UploadResult(t, rec, ts, replaced);
            && (AttachesTag(t, u) <==> ts != [])
            && (TakesTag(t, u) <==> NeedsTagRemove(t, ts, replaced))
            && (RetiresFile(t, u) <==> replaced.Some?)
            && u.IsLive(rec.slug)
  {
    UploadTagMap(t, rec, ts, replaced);
    UploadAttaches(t, rec, ts, replaced);
    UploadTakes(t, rec, ts, replaced);
    UploadRetires(t, rec, ts, replaced);
    hide *;
  }

  lemma UploadAttaches(t: Tables, rec: FileRecord, ts: seq<Tag>, replaced: Option<Slug>)
    requires t.WellFormed() && rec.slug !in t.files && replaced != Some(rec.slug)
    ensures AttachesTag(t, UploadResult(t, rec, ts, replaced)) <==> ts != []
  {
    var u := UploadResult(t, rec, ts, replaced);
    UploadTagMap(t, rec, ts, replaced);
    if ts != [] {
      assert ts[0] in u.tags && u.tags[ts[0]] == rec.slug;
    }
  }

  lemma UploadTakes(t: Tables, rec: FileRecord, ts: seq<Tag>, replaced: Option<Slug>)
    requires t.WellFormed() && rec.slug !in t.files && replaced != Some(rec.slug)
    ensures TakesTag(t, UploadResult(t, rec, ts, replaced)) <==> NeedsTagRemove(t, ts, replaced)
  {
    var u := UploadResult(t, rec, ts, replaced);
    UploadTagMap(t, rec, ts, replaced);
    hide UploadResult;
    forall g | g in t.tags
      ensures (g !in u.tags || u.tags[g] != t.tags[g]) <==> g in ts || Some(t.tags[g]) == replaced
    {
      assert t.tags[g] != rec.slug;
    }
    if NeedsTagRemove(t, ts, replaced) {
      var g :| g in t.tags && (g in ts || Some(t.tags[g]) == replaced);
      assert g !in u.tags || u.tags[g] != t.tags[g];
    }
    if TakesTag(t, u) {
      var g :| g in t.tags && (g !in u.tags || u.tags[g] != t.tags[g]);
      if g !in ts {
        assert g in t.TagsOf(replaced.value);
      }
    }
  }

  lemma UploadRetires(t: Tables, rec: FileRecord, ts: seq<Tag>, replaced: Option<Slug>)
    requires rec.slug !in t.files && !rec.pending && !rec.deleted
    requires replaced.Some? ==> t.IsLive(replaced.value)
    ensures var u := UploadResult(t, rec, ts, replaced); u.IsLive(rec.slug) && (RetiresFile(t, u) <==> replaced.Some?)
    ensures replaced != Some(rec.slug)
  {
    var u := UploadResult(t, rec, ts, replaced);
    if replaced.Some? {
      assert replaced.value in t.files && t.IsLive(replaced.value) && !u.IsLive(replaced.value);
    }
  }

  /** The tag map after an upload: the old one without the superseded file's tags, and the requested ones on the new file. */
  lemma UploadTagMap(t: Tables, rec: FileRecord, ts: seq<Tag>, replaced: Option<Slug>)
    requires replaced != Some(rec.slug)
    ensures UploadResult(t, rec, ts, replaced).tags ==
            (map g | g in t.tags && Some(t.tags[g]) != replaced :: t.tags[g]) + (map g | g in ts :: rec.slug)
  {
  }

  /** One upload after another keeps every tag on a live file. */
  lemma UploadsKeepTagsLive(t: Tables, rec: FileRecord, ts: seq<Tag>, replaced: Option<Slug>)
    requires t.WellFormed() && TagsNameLiveFiles(t) && rec.slug !in t.files && !rec.pending && !rec.deleted
    requires replaced != Some(rec.slug)
    ensures TagsNameLiveFiles(UploadResult(t, rec, ts, replaced))
  {
    assert TagsNameLiveFiles(t.Insert(rec));
    ApplyUploadTagsLive(t.Insert(rec), rec.slug, ts, replaced);
  }

  /** One upload after another keeps names unique: what was live under the name is what is superseded. */
  lemma UploadsKeepNamesUnique(t: Tables, rec: FileRecord, ts: seq<Tag>, answer: Option<FileRecord>)
    requires t.WellFormed() && NamesAreUnique(t) && rec.slug !in t.files && !rec.pending && !rec.deleted
    requires t.IsAnswerByName(answer, rec.displayName)
    ensures NamesAreUnique(UploadResult(t, rec, ts, SlugOf(answer)))
    ensures NamesAreUnique(t.Insert(rec)) <==> answer == None
  {
    var u := t.Insert(rec);
    if answer.Some? {
      assert u.IsLive(answer.value.slug) && u.IsLive(rec.slug) && answer.value.slug in u.files;
    }
  }

  /** Nothing but rows of no live file has been added: what clients see is the same. */
  ghost predicate Untouched(t: Tables, u: Tables) {
    && u.tags == t.tags
    && (forall x | x in t.files :: x in u.files && u.files[x] == t.files[x])
    && (forall x | x in u.files && x !in t.files :: !u.IsLive(x))
  }

  lemma UntouchedLooksTheSame(t: Tables, u: Tables)
    requires (Untouched(t, u) || t == u) && t.WellFormed()
    ensures VisibleOf(u) == VisibleOf(t)
    ensures TagsNameLiveFiles(u) <==> TagsNameLiveFiles(t)
    ensures NamesAreUnique(u) <==> NamesAreUnique(t)
  {
    assert VisibleOf(u).live == VisibleOf(t).live;
    assert VisibleOf(u).tags == VisibleOf(t).tags;
    assert forall g | g in t.tags :: u.IsLive(t.tags[g]) <==> t.IsLive(t.tags[g]);
    assert forall x | x in u.files && u.IsLive(x) :: x in t.files && t.IsLive(x);
    assert forall x | x in t.files && t.IsLive(x) :: u.IsLive(x);
  }

  lemma AbortedIsUntouched(t: Tables, rec: FileRecord, failAt: Option<nat>)
    requires t.WellFormed() && rec.slug !in t.files && rec.pending
    ensures Untouched(t, t.Insert(rec).Abort(rec.slug, failAt)) && Untouched(t, t.Insert(rec))
    ensures t.Insert(rec).Abort(rec.slug, failAt).files ==
            t.files[rec.slug := if CallWorks(failAt, 0) then rec.(deleted := true, pending := false) else rec]
  {
    assert t.Insert(rec).DropTagsOf(rec.slug).tags == t.tags;
    assert t.Insert(rec).Abandon(rec.slug).DropTagsOf(rec.slug).tags == t.tags;
  }

  /** Attaching ts to slug takes some tag off another file. */
  ghost predicate TakesFromOthers(t: Tables, ts: seq<Tag>, slug: Slug) {
    exists g :: g in ts && g in t.tags && t.tags[g] != slug
  }

  lemma OwnersMeanTaking(t: Tables, ts: seq<Tag>, slug: Slug, owners: seq<Slug>)
    requires forall o :: o in owners <==> o != slug && exists g :: g in ts && g in t.tags && t.tags[g] == o
    ensures owners != [] <==> TakesFromOthers(t, ts, slug)
  {
    if owners != [] {
      assert owners[0] in owners;
    }
    if g :| g in ts && g in t.tags && t.tags[g] != slug {
      assert t.tags[g] in owners;
    }
  }

  /** Attaching tags costs tag:remove exactly when one leaves another file; it never retires a file. */
  lemma TagAddsCostTheirEffects(t: Tables, ts: seq<Tag>, slug: Slug)
    ensures var u := t.Assign(ts, slug);
            && (TakesTag(t, u) <==> TakesFromOthers(t, ts, slug))
            && (AttachesTag(t, u) <==> exists g :: g in ts && (g !in t.tags || t.tags[g] != slug))
            && !RetiresFile(t, u)
  {
    var u := t.Assign(ts, slug);
    if g :| g in ts && (g !in t.tags || t.tags[g] != slug) {
      assert g in u.tags && u.tags[g] == slug;
    }
  }

  /** Deletions handled one at a time keep tags on live files and names unique. */
  lemma DeletionsKeepTheTablesInOrder(t: Tables, slug: Slug)
    requires TagsNameLiveFiles(t)
    ensures TagsNameLiveFiles(t.SoftDelete(slug))
    ensures NamesAreUnique(t) ==> NamesAreUnique(t.SoftDelete(slug))
  {
    var u := t.SoftDelete(slug);
    forall g | g in u.tags ensures u.IsLive(u.tags[g]) {
      assert t.IsLive(t.tags[g]);
    }
    assert forall x | x in u.files && u.IsLive(x) :: t.IsLive(x) && u.files[x] == t.files[x];
  }

  /** So do tag changes, on a file that is live. */
  lemma TagChangesKeepTheTablesInOrder(t: Tables, slug: Slug, ts: seq<Tag>, tag: Tag)
    requires TagsNameLiveFiles(t)
    ensures TagsNameLiveFiles(t.DropTag(slug, tag))
    ensures t.IsLive(slug) ==> TagsNameLiveFiles(t.Assign(ts, slug))
  {
    AssignTagsLive(t, ts, slug);
  }
}
