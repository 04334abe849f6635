/**
 What a client can see of the record database - the live files and the tags that resolve to them -
 and the handful of operations that change it. The tables hold more: reserved and deleted rows, and
 tag rows whose file has died. Each operation here is stated on the visible part alone.
 */
module Catalogue {
  import opened Wrappers
  import opened TagSyntax
  import opened Records

  datatype Visible = Visible(live: map<Slug, FileRecord>, tags: map<Tag, Slug>) {
    function Publish(rec: FileRecord): Visible {
      this.(live := live[rec.slug := rec])
    }

    /** Tags given to a file; given to a file that is gone, they resolve to nothing. */
    function Assign(ts: seq<Tag>, slug: Slug): Visible {
      this.(tags := if slug in live then tags + map t | t in ts :: slug else tags - set t | t in ts)
    }

    function Remove(slug: Slug): Visible {
      Visible(live - {slug}, map t | t in tags && tags[t] != slug :: tags[t])
    }

    function RemoveTag(slug: Slug, tag: Tag): Visible {
      if tag in tags && tags[tag] == slug then this.(tags := tags - {tag}) else this
    }

    function ByTag(tag: Tag): Option<FileRecord> {
      if tag in tags && tags[tag] in live then Some(live[tags[tag]]) else None
    }
  }

  datatype Operation =
    | Nothing
    | Publish(rec: FileRecord)
    | Supersede(slug: Slug, ts: seq<Tag>, replaced: Option<Slug>)
    | Remove(slug: Slug)
    | RemoveTag(slug: Slug, tag: Tag)

  function Apply(v: Visible, op: Operation): Visible {
    match op
    case Nothing => v
    case Publish(rec) => v.Publish(rec)
    case Supersede(slug, ts, replaced) =>
      var tagged := v.Assign(ts, slug);
      if replaced.Some? then tagged.Remove(replaced.value) else tagged
    case Remove(slug) => v.Remove(slug)
    case RemoveTag(slug, tag) => v.RemoveTag(slug, tag)
  }

  function VisibleOf(t: Tables): Visible {
    Visible(
      map s | s in t.files && t.IsLive(s) :: t.files[s],
      map g | g in t.tags && t.IsLive(t.tags[g]) :: t.tags[g])
  }

  // ---- Each statement or transaction, as seen by a client ----

  lemma LookupByTag(t: Tables, tag: Tag)
    ensures VisibleOf(t).ByTag(tag) == t.LiveRecordByTag(tag)
  {
  }

  lemma ReserveIsInvisible(t: Tables, rec: FileRecord)
    requires t.WellFormed() && rec.slug !in t.files && rec.pending
    ensures VisibleOf(t.Insert(rec)) == VisibleOf(t)
  {
    assert VisibleOf(t.Insert(rec)).live == VisibleOf(t).live;
    assert VisibleOf(t.Insert(rec)).tags == VisibleOf(t).tags;
  }

  lemma FinalizePublishes(t: Tables, slug: Slug, size: int, modified: string)
    requires t.WellFormed() && t.IsPending(slug) && forall g :: g in t.tags ==> t.tags[g] != slug
    ensures VisibleOf(t.Finalize(slug, size, modified)) ==
            VisibleOf(t).Publish(t.files[slug].(size := size, modified := modified, pending := false))
  {
    var u := t.Finalize(slug, size, modified);
    assert VisibleOf(u).live == VisibleOf(t).live[slug := u.files[slug]];
    assert VisibleOf(u).tags == VisibleOf(t).tags;
  }

  lemma AbandonIsInvisible(t: Tables, slug: Slug)
    requires !t.IsLive(slug)
    ensures VisibleOf(t.Abandon(slug)) == VisibleOf(t)
  {
    assert VisibleOf(t.Abandon(slug)).live == VisibleOf(t).live;
    assert VisibleOf(t.Abandon(slug)).tags == VisibleOf(t).tags;
  }

  lemma SweepIsInvisible(t: Tables, slug: Slug)
    requires !t.IsLive(slug)
    ensures VisibleOf(t.DropTagsOf(slug)) == VisibleOf(t)
  {
    assert VisibleOf(t.DropTagsOf(slug)).tags == VisibleOf(t).tags;
  }

  lemma AssignIsAssign(t: Tables, ts: seq<Tag>, slug: Slug)
    ensures VisibleOf(t.Assign(ts, slug)) == VisibleOf(t).Assign(ts, slug)
  {
    assert VisibleOf(t.Assign(ts, slug)).live == VisibleOf(t).live;
    assert VisibleOf(t.Assign(ts, slug)).tags == VisibleOf(t).Assign(ts, slug).tags;
  }

  lemma RetireRemoves(t: Tables, slug: Slug)
    ensures VisibleOf(t.DropTagsOf(slug).Retire(slug)) == VisibleOf(t).Remove(slug)
    ensures VisibleOf(t.Retire(slug).DropTagsOf(slug)) == VisibleOf(t).Remove(slug)
  {
    var u := t.DropTagsOf(slug).Retire(slug);
    assert t.Retire(slug).DropTagsOf(slug) == u;
    assert VisibleOf(u).live == VisibleOf(t).Remove(slug).live;
    assert VisibleOf(u).tags == VisibleOf(t).Remove(slug).tags;
  }

  lemma SoftDeleteRemoves(t: Tables, slug: Slug)
    ensures VisibleOf(t.SoftDelete(slug)) == VisibleOf(t).Remove(slug)
  {
    RetireRemoves(t, slug);
    if !t.IsLive(slug) {
      assert VisibleOf(t).Remove(slug).live == VisibleOf(t).live;
      assert VisibleOf(t).Remove(slug).tags == VisibleOf(t).tags;
    }
  }

  lemma ApplyUploadSupersedes(t: Tables, slug: Slug, ts: seq<Tag>, replaced: Option<Slug>)
    ensures VisibleOf(t.ApplyUpload(slug, ts, replaced)) == Apply(VisibleOf(t), Supersede(slug, ts, replaced))
  {
    AssignIsAssign(t, ts, slug);
    if replaced.Some? {
      RetireRemoves(t.Assign(ts, slug), replaced.value);
    }
  }

  lemma DropTagRemovesTag(t: Tables, slug: Slug, tag: Tag)
    ensures VisibleOf(t.DropTag(slug, tag)) == VisibleOf(t).RemoveTag(slug, tag)
  {
    var u := t.DropTag(slug, tag);
    assert VisibleOf(u).live == VisibleOf(t).live;
    assert VisibleOf(u).tags == VisibleOf(t).RemoveTag(slug, tag).tags;
  }
}
