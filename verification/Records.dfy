/**
 The record database: the files table, the tags table, and the statements and transactions that
 change them. Transactions are atomic: one that fails at any of its calls leaves the tables alone.
 */
module Records {
  import opened Wrappers
  import opened Keys
  import opened TagSyntax

  type Slug = string

  datatype FileRecord = FileRecord(
    slug: Slug,
    displayName: string,
    storageKey: string,
    size: int,
    modified: string,
    mimeType: string,
    deleted: bool,
    pending: bool)

  datatype Stage = Absent | Pending | Live | Deleted

  datatype Tables = Tables(files: map<Slug, FileRecord>, tags: map<Tag, Slug>) {

    predicate IsLive(slug: Slug) {
      slug in files && !files[slug].deleted && !files[slug].pending
    }

    predicate IsPending(slug: Slug) {
      slug in files && !files[slug].deleted && files[slug].pending
    }

    function StageOf(slug: Slug): Stage {
      if slug !in files then Absent
      else if files[slug].deleted then Deleted
      else if files[slug].pending then Pending
      else Live
    }

    /** Every row is filed under its own slug and storage key, and every tag under an existing row. */
    ghost predicate WellFormed() {
      && (forall s :: s in files ==>
            IsSlug(s) && files[s].slug == s && files[s].storageKey == StorageKeyForSlug(s))
      && (forall t :: t in tags ==> tags[t] in files)
    }

    // ---- What each statement does ----

    function Insert(rec: FileRecord): Tables {
      this.(files := files[rec.slug := rec])
    }

    function Finalize(slug: Slug, size: int, modified: string): Tables {
      if slug !in files then this
      else this.(files := files[slug := files[slug].(size := size, modified := modified, pending := false)])
    }

    /** The update of an abandoned upload. */
    function Abandon(slug: Slug): Tables {
      if slug !in files then this
      else this.(files := files[slug := files[slug].(deleted := true, pending := false)])
    }

    /** The update that retires a superseded or deleted file. */
    function Retire(slug: Slug): Tables {
      if slug !in files then this
      else this.(files := files[slug := files[slug].(deleted := true)])
    }

    function DropTagsOf(slug: Slug): Tables {
      this.(tags := map t | t in tags && tags[t] != slug :: tags[t])
    }

    function DropTag(slug: Slug, tag: Tag): Tables {
      if tag in tags && tags[tag] == slug then this.(tags := tags - {tag}) else this
    }

    function Assign(ts: seq<Tag>, slug: Slug): Tables {
      this.(tags := tags + map t | t in ts :: slug)
    }

    // ---- What each transaction does ----

    function SoftDelete(slug: Slug): Tables {
      if IsLive(slug) then Retire(slug).DropTagsOf(slug) else this
    }

    function ApplyUpload(slug: Slug, ts: seq<Tag>, replaced: Option<Slug>): Tables {
      match replaced
      case None => Assign(ts, slug)
      case Some(r) => Assign(ts, slug).DropTagsOf(r).Retire(r)
    }

    /** The two statements that abandon an upload, the second skipped when the first fails. */
    function Abort(slug: Slug, failAt: Option<nat>): Tables {
      if !CallWorks(failAt, 0) then this
      else if !CallWorks(failAt, 1) then Abandon(slug)
      else Abandon(slug).DropTagsOf(slug)
    }

    // ---- Lookups ----

    function TagOwner(tag: Tag): string {
      if tag in tags then tags[tag] else ""
    }

    function TagsOf(slug: Slug): set<Tag> {
      set t | t in tags && tags[t] == slug
    }

    function LiveRecordByTag(tag: Tag): Option<FileRecord> {
      if tag in tags && IsLive(tags[tag]) then Some(files[tags[tag]]) else None
    }

    predicate IsLiveRecordNamed(rec: FileRecord, name: string) {
      IsLive(rec.slug) && files[rec.slug] == rec && rec.displayName == name
    }

    /** What "SELECT ... WHERE display_name = ? AND deleted = 0 AND pending = 0 LIMIT 1" may answer. */
    ghost predicate IsAnswerByName(answer: Option<FileRecord>, name: string) {
      match answer
      case Some(rec) => IsLiveRecordNamed(rec, name)
      case None => forall s :: IsLive(s) ==> files[s].displayName != name
    }
  }

  function SlugOf(answer: Option<FileRecord>): Option<Slug> {
    if answer.Some? then Some(answer.value.slug) else None
  }

  // ---- The life of a row ----

  /** The only ways a row may change: reserved, then live, then deleted; what identifies it never changes. */
  predicate RowAdvances(a: FileRecord, b: FileRecord) {
    && a.slug == b.slug && a.displayName == b.displayName && a.storageKey == b.storageKey && a.mimeType == b.mimeType
    && (a.deleted ==> b == a)
    && (!a.pending ==> !b.pending && a.size == b.size && a.modified == b.modified)
  }

  /** No row vanishes and every row moves forward. */
  ghost predicate Advances(t: Tables, u: Tables) {
    forall s :: s in t.files ==> s in u.files && RowAdvances(t.files[s], u.files[s])
  }

  lemma AdvancesIsTransitive(t: Tables, u: Tables, v: Tables)
    requires Advances(t, u) && Advances(u, v)
    ensures Advances(t, v)
  {
  }

  predicate StageStep(a: Stage, b: Stage) {
    || a == b
    || (a == Absent && b == Pending)
    || (a == Pending && b != Absent)
    || (a == Live && b == Deleted)
  }

  lemma AdvancesNeverReverses(t: Tables, u: Tables, slug: Slug)
    requires Advances(t, u) && t.WellFormed() && slug in t.files
    ensures StageStep(t.StageOf(slug), u.StageOf(slug))
  {
  }

  /**
   The comment on the transaction says the requested tags must be moved before the superseded file's
   tags are swept. The order only matters if a file could supersede itself.
   */
  lemma SweepOrder(t: Tables, slug: Slug, ts: seq<Tag>, replaced: Slug)
    ensures t.ApplyUpload(slug, ts, Some(replaced)) == t.DropTagsOf(replaced).Assign(ts, slug).Retire(replaced)
            <==> slug != replaced || ts == []
  {
    SweptTags(t, slug, ts, replaced);
    var (a, b) := (t.Assign(ts, slug).DropTagsOf(replaced), t.DropTagsOf(replaced).Assign(ts, slug));
    assert a.files == b.files == t.files && a.Retire(replaced).tags == a.tags && b.Retire(replaced).tags == b.tags;
    hide Tables.Assign, Tables.DropTagsOf;
  }

  lemma SweptTags(t: Tables, slug: Slug, ts: seq<Tag>, replaced: Slug)
    ensures t.Assign(ts, slug).DropTagsOf(replaced).tags == t.DropTagsOf(replaced).Assign(ts, slug).tags
            <==> slug != replaced || ts == []
  {
    var (a, b) := (t.Assign(ts, slug).DropTagsOf(replaced).tags, t.DropTagsOf(replaced).Assign(ts, slug).tags);
    if slug != replaced || ts == [] {
      forall g ensures g in a <==> g in b
               ensures g in a ==> a[g] == b[g]
      {
      }
    } else {
      assert ts[0] in b && ts[0] !in a;
    }
  }

  // ---- Database calls that may fail ----

  datatype DbError = CallFailed | NoUniqueSlug | RandomFailed | NoSuchRow

  /** failAt numbers the first call of a method that the database fails; None when all succeed. */
  predicate CallWorks(failAt: Option<nat>, call: nat) {
    failAt.None? || call < failAt.value
  }

  const ATTEMPTS := (SHORT_SLUG_MAX_LEN - SHORT_SLUG_MIN_LEN + 1) * SHORT_SLUG_ATTEMPTS_PER_LEN

  /** One random slug per attempt, longer by one after every ten; None when the random source fails. */
  ghost predicate IsDraws(draws: seq<Option<Slug>>) {
    |draws| == ATTEMPTS &&
    forall k :: 0 <= k < ATTEMPTS && draws[k].Some? ==>
                  IsSlugOfLength(draws[k].value, SHORT_SLUG_MIN_LEN + k / SHORT_SLUG_ATTEMPTS_PER_LEN)
  }

  /** Attempt k is the first whose slug is free, all earlier ones having collided. */
  predicate FirstFree(draws: seq<Option<Slug>>, files: map<Slug, FileRecord>, k: nat) {
    && k < |draws| && draws[k].Some? && draws[k].value !in files
    && forall j :: 0 <= j < k ==> draws[j].Some? && draws[j].value in files
  }

  predicate AllTaken(draws: seq<Option<Slug>>, files: map<Slug, FileRecord>, n: nat) {
    n <= |draws| && forall j :: 0 <= j < n ==> draws[j].Some? && draws[j].value in files
  }

  /** The random source fails on attempt k, all earlier slugs having collided. */
  predicate RandomFailsAt(draws: seq<Option<Slug>>, files: map<Slug, FileRecord>, k: nat) {
    k < |draws| && draws[k].None? && AllTaken(draws, files, k)
  }

  /**
   Inserts rec under a fresh slug, inside the caller's transaction. Insert attempt k is call
   firstCall + k. The insert succeeds exactly when some attempt draws a free slug before anything
   fails, and otherwise the table is as it was.
   */
  method InsertUniqueRecord(t: Tables, rec: FileRecord, draws: seq<Option<Slug>>, firstCall: nat, failAt: Option<nat>)
    returns (r: Result<FileRecord, DbError>, t': Tables)
    requires IsDraws(draws)
    ensures r.Success? <==> exists k :: FirstFree(draws, t.files, k) && CallWorks(failAt, firstCall + k)
    ensures r.Success? ==> IsSlug(r.value.slug) && r.value.slug !in t.files
    ensures r.Success? ==> r.value == rec.(slug := r.value.slug, storageKey := StorageKeyForSlug(r.value.slug))
    ensures r.Success? ==> t' == t.Insert(r.value)
    ensures r.Failure? ==> t' == t
    ensures r == Failure(NoUniqueSlug) <==> AllTaken(draws, t.files, ATTEMPTS) && CallWorks(failAt, firstCall + ATTEMPTS - 1)
    ensures r == Failure(RandomFailed) <==>
            exists k :: RandomFailsAt(draws, t.files, k) && (k > 0 ==> CallWorks(failAt, firstCall + k - 1))
  {
    t' := t;
    for length := SHORT_SLUG_MIN_LEN to SHORT_SLUG_MAX_LEN + 1
      invariant AllTaken(draws, t.files, (length - SHORT_SLUG_MIN_LEN) * SHORT_SLUG_ATTEMPTS_PER_LEN)
      invariant length > SHORT_SLUG_MIN_LEN ==>
                  CallWorks(failAt, firstCall + (length - SHORT_SLUG_MIN_LEN) * SHORT_SLUG_ATTEMPTS_PER_LEN - 1)
    {
      for attempt := 0 to SHORT_SLUG_ATTEMPTS_PER_LEN
        invariant AllTaken(draws, t.files, (length - SHORT_SLUG_MIN_LEN) * SHORT_SLUG_ATTEMPTS_PER_LEN + attempt)
        invariant var tried := (length - SHORT_SLUG_MIN_LEN) * SHORT_SLUG_ATTEMPTS_PER_LEN + attempt;
                  tried > 0 ==> CallWorks(failAt, firstCall + tried - 1)
      {
        var k := (length - SHORT_SLUG_MIN_LEN) * SHORT_SLUG_ATTEMPTS_PER_LEN + attempt;
        if draws[k].None? {
          assert RandomFailsAt(draws, t.files, k);
          return Failure(RandomFailed), t;
        }
        var slug := draws[k].value;
        assert IsSlugOfLength(slug, length);
        if !CallWorks(failAt, firstCall + k) {
          return Failure(CallFailed), t;
        }
        if slug !in t.files {
          assert FirstFree(draws, t.files, k);
          var inserted := rec.(slug := slug, storageKey := StorageKeyForSlug(slug));
          return Success(inserted), t.Insert(inserted);
        }
      }
    }
    r := Failure(NoUniqueSlug);
  }

  class Database {
    var tables: Tables

    ghost predicate Valid()
      reads this
    {
      tables.WellFormed()
    }

    constructor ()
      ensures Valid() && tables == Tables(map[], map[])
    {
      tables := Tables(map[], map[]);
    }

    /** One query; which of several live records it answers is up to the database. */
    method FindLiveRecordByName(name: string, works: bool) returns (r: Result<Option<FileRecord>, DbError>)
      requires Valid()
      ensures r.Success? <==> works
      ensures r.Success? ==> tables.IsAnswerByName(r.value, name)
    {
      if !works {
        return Failure(CallFailed);
      }
      var named := set s | s in tables.files && tables.IsLive(s) && tables.files[s].displayName == name;
      if named == {} {
        assert forall s :: tables.IsLive(s) && tables.files[s].displayName == name ==> s in named;
        return Success(None);
      }
      var s :| s in named;
      return Success(Some(tables.files[s]));
    }

    /**
     Reserves a pending row and reports, without touching it, the live record the upload is about to
     supersede. Calls: begin, lookup, one per insert attempt, commit.
     */
    method ReserveUpload(name: string, mimeType: string, appendOnly: bool, draws: seq<Option<Slug>>, failAt: Option<nat>)
      returns (r: Result<(FileRecord, Option<FileRecord>), DbError>)
      requires Valid() && IsDraws(draws)
      modifies this
      ensures Valid()
      ensures r.Failure? ==> tables == old(tables)
      ensures r.Success? <==> CallWorks(failAt, 2 + ATTEMPTS) && exists k :: FirstFree(draws, old(tables).files, k)
      ensures r.Success? ==>
                var (rec, replaced) := r.value;
                && IsSlug(rec.slug)
                && rec == FileRecord(rec.slug, name, StorageKeyForSlug(rec.slug), 0, "", mimeType, false, true)
                && rec.slug !in old(tables).files
                && tables == old(tables).Insert(rec)
                && (if appendOnly then replaced == None else old(tables).IsAnswerByName(replaced, name))
    {
      if !CallWorks(failAt, 0) {
        return Failure(CallFailed);
      }
      var replaced: Option<FileRecord> := None;
      if !appendOnly {
        var found := FindLiveRecordByName(name, CallWorks(failAt, 1));
        if found.Failure? {
          return Failure(found.error);
        }
        replaced := found.value;
      }
      var template := FileRecord("", name, "", 0, "", mimeType, false, true);
      var inserted, after := InsertUniqueRecord(tables, template, draws, 2, failAt);
      if inserted.Failure? {
        return Failure(inserted.error);
      }
      if !CallWorks(failAt, 2 + ATTEMPTS) {
        return Failure(CallFailed);
      }
      tables := after;
      return Success((inserted.value, replaced));
    }

    /** Two calls outside any transaction: the update may take effect although the method fails. */
    method FinalizeUpload(slug: Slug, size: int, modified: string, failAt: Option<nat>) returns (r: Result<FileRecord, DbError>)
      requires Valid()
      modifies this
      ensures Valid()
      ensures tables == if CallWorks(failAt, 0) then old(tables).Finalize(slug, size, modified) else old(tables)
      ensures r.Success? <==> CallWorks(failAt, 1) && slug in tables.files
      ensures r.Success? ==> r.value == tables.files[slug]
    {
      if !CallWorks(failAt, 0) {
        return Failure(CallFailed);
      }
      tables := tables.Finalize(slug, size, modified);
      if !CallWorks(failAt, 1) {
        return Failure(CallFailed);
      }
      if slug !in tables.files {
        return Failure(NoSuchRow);
      }
      return Success(tables.files[slug]);
    }

    method AbortUpload(slug: Slug, failAt: Option<nat>) returns (ok: bool)
      requires Valid()
      modifies this
      ensures Valid()
      ensures ok <==> CallWorks(failAt, 1)
      ensures tables == old(tables).Abort(slug, failAt)
    {
      if !CallWorks(failAt, 0) {
        return false;
      }
      tables := tables.Abandon(slug);
      if !CallWorks(failAt, 1) {
        return false;
      }
      tables := tables.DropTagsOf(slug);
      return true;
    }

    /** Calls: begin, lookup, update, sweep, commit. */
    method SoftDeleteBySlug(slug: Slug, failAt: Option<nat>) returns (r: Result<Option<FileRecord>, DbError>)
      requires Valid()
      modifies this
      ensures Valid() && Advances(old(tables), tables)
      ensures r.Failure? ==> tables == old(tables)
      ensures r.Success? <==> CallWorks(failAt, if old(tables).IsLive(slug) then 4 else 1)
      ensures r.Success? ==> tables == old(tables).SoftDelete(slug)
      ensures r.Success? ==> r.value == if old(tables).IsLive(slug) then Some(old(tables).files[slug]) else None
    {
      if !CallWorks(failAt, 1) {
        return Failure(CallFailed);
      }
      if !tables.IsLive(slug) {
        return Success(None);
      }
      var rec := tables.files[slug];
      if !CallWorks(failAt, 2) {
        return Failure(CallFailed);
      }
      var tx := tables.Retire(slug);
      if !CallWorks(failAt, 3) {
        return Failure(CallFailed);
      }
      tx := tx.DropTagsOf(rec.slug);
      if !CallWorks(failAt, 4) {
        return Failure(CallFailed);
      }
      tables := tx;
      return Success(Some(rec));
    }

    /** Calls: begin, one upsert per tag, sweep, retire, commit. A tag must reference an existing row. */
    method ApplyUploadTags(slug: Slug, ts: seq<Tag>, replaced: Option<Slug>, failAt: Option<nat>) returns (ok: bool)
      requires Valid()
      modifies this
      ensures Valid() && Advances(old(tables), tables)
      ensures !ok ==> tables == old(tables)
      ensures ok ==> tables == old(tables).ApplyUpload(slug, ts, replaced)
      ensures ok <==> (ts == [] && replaced == None)
                      || (CallWorks(failAt, 3 + |ts|) && (ts == [] || slug in old(tables).files))
    {
      if ts == [] && replaced == None {
        assert tables.tags + (map t | t in ts :: slug) == tables.tags;
        return true;
      }
      if !CallWorks(failAt, 0) {
        return false;
      }
      var tx := tables;
      for i := 0 to |ts|
        invariant tables == old(tables) && tx == tables.Assign(ts[..i], slug)
        invariant i > 0 ==> slug in tables.files
      {
        if !CallWorks(failAt, 1 + i) || slug !in tx.files {
          return false;
        }
        AssignSnoc(tables, ts, i, slug);
        tx := tx.(tags := tx.tags[ts[i] := slug]);
      }
      assert ts[..|ts|] == ts;
      if replaced.Some? {
        if !CallWorks(failAt, 1 + |ts|) {
          return false;
        }
        tx := tx.DropTagsOf(replaced.value);
        if !CallWorks(failAt, 2 + |ts|) {
          return false;
        }
        tx := tx.Retire(replaced.value);
      }
      ApplyUploadKeepsTables(tables, slug, ts, replaced);
      if !CallWorks(failAt, 3 + |ts|) {
        return false;
      }
      tables := tx;
      return true;
    }

    /**
     Attaches tags, moving each off any other file, and reports the tags that changed owner together
     with their previous one. Calls: begin, owner lookup and upsert per tag, listing, commit.
     */
    method AddTagsToSlug(slug: Slug, ts: seq<Tag>, failAt: Option<nat>)
      returns (r: Result<(set<Tag>, map<string, Slug>), DbError>)
      requires Valid() && forall t :: t in ts ==> ValidTag(t)
      modifies this
      ensures Valid() && Advances(old(tables), tables)
      ensures r.Failure? ==> tables == old(tables)
      ensures r.Success? <==> CallWorks(failAt, 2 + 2 * |ts|) && (ts == [] || slug in old(tables).files)
      ensures r.Success? ==> tables == old(tables).Assign(ts, slug)
      ensures r.Success? ==> r.value.0 == tables.TagsOf(slug)
      ensures r.Success? ==> MovedExactly(r.value.1, old(tables).tags, tables.tags, ts)
    {
      hide ValidTag, MovedExactly, RenderApart, IsSlug, StorageKeyForSlug, Tag.ToString;
      if !CallWorks(failAt, 0) {
        return Failure(CallFailed);
      }
      var tx := tables;
      var moved: map<string, Slug> := map[];
      NothingMoved(tables.tags, ts);
      RenderingsAreDistinct(ts);
      for i := 0 to |ts|
        invariant tables == old(tables) && tx == tables.Assign(ts[..i], slug)
        invariant i > 0 ==> slug in tables.files
        invariant MovedExactly(moved, tables.tags, tx.tags, ts[..i])
      {
        if !CallWorks(failAt, 1 + 2 * i) {
          return Failure(CallFailed);
        }
        var previous := tx.TagOwner(ts[i]);
        MovedStep(tables, ts, i, slug, moved);
        if previous != "" && previous != slug {
          moved := moved[ts[i].ToString() := previous];
        }
        if !CallWorks(failAt, 2 + 2 * i) || slug !in tx.files {
          return Failure(CallFailed);
        }
        AssignSnoc(tables, ts, i, slug);
        tx := tx.(tags := tx.tags[ts[i] := slug]);
      }
      assert ts[..|ts|] == ts;
      var list := tx.TagsOf(slug);
      if !CallWorks(failAt, 2 + 2 * |ts|) {
        return Failure(CallFailed);
      }
      tables := tx;
      return Success((list, moved));
    }

    method RemoveTagFromSlug(slug: Slug, tag: Tag, works: bool) returns (r: Result<bool, DbError>)
      requires Valid()
      modifies this
      ensures Valid() && Advances(old(tables), tables)
      ensures r.Success? <==> works
      ensures r.Failure? ==> tables == old(tables)
      ensures r.Success? ==> tables == old(tables).DropTag(slug, tag)
      ensures r.Success? ==> (r.value <==> tables != old(tables))
    {
      if !works {
        return Failure(CallFailed);
      }
      var attached := tag in tables.tags && tables.tags[tag] == slug;
      tables := tables.DropTag(slug, tag);
      return Success(attached);
    }

    /** The files, other than exclude, that own any of the tags. One query per tag. */
    method TagsOwnedByAnotherFile(ts: seq<Tag>, exclude: string, failAt: Option<nat>) returns (r: Result<seq<Slug>, DbError>)
      requires Valid()
      ensures r.Success? <==> ts == [] || CallWorks(failAt, |ts| - 1)
      ensures r.Success? ==>
                forall o :: o in r.value <==> o != exclude && exists t :: t in ts && t in tables.tags && tables.tags[t] == o
    {
      var owners: seq<Slug> := [];
      for i := 0 to |ts|
        invariant i > 0 ==> CallWorks(failAt, i - 1)
        invariant forall o :: o in owners <==>
                                o != exclude && exists j :: 0 <= j < i && ts[j] in tables.tags && tables.tags[ts[j]] == o
      {
        if !CallWorks(failAt, i) {
          return Failure(CallFailed);
        }
        var owner := tables.TagOwner(ts[i]);
        if owner != "" && owner != exclude {
          owners := owners + [owner];
        }
      }
      return Success(owners);
    }
  }

  lemma FinalizeKeepsTables(t: Tables, slug: Slug, size: int, modified: string)
    requires t.WellFormed() && t.IsPending(slug)
    ensures var u := t.Finalize(slug, size, modified);
            && u.WellFormed() && Advances(t, u)
            && u.files.Keys == t.files.Keys
            && (forall s | s in t.files && s != slug :: u.files[s] == t.files[s])
  {
  }

  lemma InsertKeepsTables(t: Tables, rec: FileRecord)
    requires t.WellFormed() && IsSlug(rec.slug) && rec.storageKey == StorageKeyForSlug(rec.slug)
    ensures t.Insert(rec).WellFormed()
  {
    hide IsSlug, StorageKeyForSlug;
  }

  lemma RetireKeepsTables(t: Tables, slug: Slug)
    requires t.WellFormed()
    ensures t.Retire(slug).WellFormed() && Advances(t, t.Retire(slug))
  {
    hide IsSlug, StorageKeyForSlug;
  }

  lemma ApplyUploadKeepsTables(t: Tables, slug: Slug, ts: seq<Tag>, replaced: Option<Slug>)
    requires t.WellFormed() && (ts == [] || slug in t.files)
    ensures t.ApplyUpload(slug, ts, replaced).WellFormed() && Advances(t, t.ApplyUpload(slug, ts, replaced))
  {
    hide IsSlug, StorageKeyForSlug;
    var a := t.Assign(ts, slug);
    assert a.WellFormed() && a.files == t.files;
    assert Advances(t, t);
    if replaced.Some? {
      var b := a.DropTagsOf(replaced.value);
      assert b.WellFormed() && b.files == t.files;
      RetireKeepsTables(b, replaced.value);
      assert Advances(t, b.Retire(replaced.value)) by {
        assert Advances(b, b.Retire(replaced.value));
      }
    }
  }

  /** moved holds exactly the tags of ts whose owner differs between the two tables, with the previous owner. */
  ghost predicate MovedExactly(moved: map<string, Slug>, before: map<Tag, Slug>, after: map<Tag, Slug>, ts: seq<Tag>) {
    && (forall t :: t in ts ==>
          (t.ToString() in moved <==> t in before && t in after && before[t] != after[t]))
    && (forall t :: t in ts && t.ToString() in moved ==> t in before && moved[t.ToString()] == before[t])
    && (forall key :: key in moved ==> exists t :: t in ts && t.ToString() == key)
  }

  lemma AssignSnoc(t: Tables, ts: seq<Tag>, i: nat, slug: Slug)
    requires i < |ts|
    ensures t.Assign(ts[..i + 1], slug).tags == t.Assign(ts[..i], slug).tags[ts[i] := slug]
  {
    assert ts[..i + 1] == ts[..i] + [ts[i]];
  }

  /** One step of the loop: tag goes from its owner in now to slug. */
  lemma MovedSnoc(before: map<Tag, Slug>, now: map<Tag, Slug>, ts: seq<Tag>, tag: Tag, slug: Slug, moved: map<string, Slug>)
    requires RenderApart(ts + [tag])
    requires MovedExactly(moved, before, now, ts)
    requires forall t :: t in before || t in ts <==> t in now
    requires forall t :: t in now ==> now[t] == if t in ts then slug else before[t]
    ensures MovedExactly(
              if tag in now && now[tag] != slug then moved[tag.ToString() := now[tag]] else moved,
              before, now[tag := slug], ts + [tag])
  {
    var moved' := if tag in now && now[tag] != slug then moved[tag.ToString() := now[tag]] else moved;
    assert tag in ts + [tag];
    forall x | x in ts && x != tag ensures x.ToString() != tag.ToString() {
      assert x in ts + [tag];
    }
    forall x | x in ts + [tag]
      ensures x.ToString() in moved' <==> x in before && before[x] != now[tag := slug][x]
      ensures x.ToString() in moved' ==> x in before && moved'[x.ToString()] == before[x]
    {
      if x == tag {
        MovedHere(before, now, ts, tag, moved);
      } else {
        assert x in ts;
      }
    }
    forall key | key in moved' ensures exists t :: t in ts + [tag] && t.ToString() == key {
      if key != tag.ToString() {
        var t :| t in ts && t.ToString() == key;
        assert t in ts + [tag];
      }
    }
  }

  lemma NothingMoved(tags: map<Tag, Slug>, ts: seq<Tag>)
    ensures MovedExactly(map[], tags, tags, ts[..0])
  {
  }

  lemma MovedStep(t: Tables, ts: seq<Tag>, i: nat, slug: Slug, moved: map<string, Slug>)
    requires t.WellFormed() && RenderApart(ts) && i < |ts|
    requires MovedExactly(moved, t.tags, t.Assign(ts[..i], slug).tags, ts[..i])
    ensures var previous := t.Assign(ts[..i], slug).TagOwner(ts[i]);
            MovedExactly(
              if previous != "" && previous != slug then moved[ts[i].ToString() := previous] else moved,
              t.tags, t.Assign(ts[..i + 1], slug).tags, ts[..i + 1])
  {
    var now := t.Assign(ts[..i], slug).tags;
    PreviousOwner(t, ts, i, slug);
    AssignSnoc(t, ts, i, slug);
    TakeSnoc(ts, i);
    assert forall x :: x in now ==> now[x] == if x in ts[..i] then slug else t.tags[x];
    hide *;
    MovedSnoc(t.tags, now, ts[..i], ts[i], slug, moved);
  }

  lemma PreviousOwner(t: Tables, ts: seq<Tag>, i: nat, slug: Slug)
    requires t.WellFormed() && i < |ts|
    ensures var (now, previous) := (t.Assign(ts[..i], slug).tags, t.Assign(ts[..i], slug).TagOwner(ts[i]));
            && (previous != "" && previous != slug <==> ts[i] in now && now[ts[i]] != slug)
            && (ts[i] in now ==> previous == now[ts[i]])
            && (forall x :: x in t.tags || x in ts[..i] <==> x in now)
  {
    assert forall x :: x in t.tags ==> t.tags[x] != "";
  }

  lemma TakeSnoc(ts: seq<Tag>, i: nat)
    requires RenderApart(ts) && i < |ts|
    ensures ts[..i + 1] == ts[..i] + [ts[i]] && RenderApart(ts[..i] + [ts[i]])
  {
    assert ts[..i + 1] == ts[..i] + [ts[i]];
    assert forall x :: x in ts[..i] + [ts[i]] ==> x in ts;
  }

  lemma MovedHere(before: map<Tag, Slug>, now: map<Tag, Slug>, ts: seq<Tag>, tag: Tag, moved: map<string, Slug>)
    requires RenderApart(ts + [tag])
    requires MovedExactly(moved, before, now, ts)
    ensures tag !in ts ==> tag.ToString() !in moved
  {
    if tag.ToString() in moved {
      var t :| t in ts && t.ToString() == tag.ToString();
      assert t in ts + [tag] && tag in ts + [tag];
    }
  }

  /** Different tags of ts have different rendered forms. */
  ghost predicate RenderApart(ts: seq<Tag>) {
    forall x, y :: x in ts && y in ts && x.ToString() == y.ToString() ==> x == y
  }

  lemma RenderingsAreDistinct(ts: seq<Tag>)
    requires forall t :: t in ts ==> ValidTag(t)
    ensures RenderApart(ts)
  {
    forall x, y | x in ts && y in ts && x.ToString() == y.ToString() ensures x == y {
      ToStringIsInjective(x, y);
    }
  }
}
