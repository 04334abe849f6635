/**
 Two live files of one name are what every superseding upload makes for a moment. This module says which
 pairs are about to be resolved, which actions of interleaved requests leave a pair that nobody resolves,
 and that exactly those pairs remain when all requests have finished.
 */
module NameRaces {
  import opened Wrappers
  import opened Records
  import opened Protocol
  import opened Guarantees
  import opened Races

  /** Two files live under one name. */
  predicate Twins(t: Tables, x: Slug, y: Slug) {
    x != y && t.IsLive(x) && t.IsLive(y) && t.files[x].displayName == t.files[y].displayName
  }

  /** Upload id has published x and is about to retire y. */
  predicate Resolving(s: State, id: nat, x: Slug, y: Slug) {
    UploadIn(s, id, WentLive) && s.requests[id].up.rec.slug == x && SlugOf(s.requests[id].up.replaced) == Some(y)
  }

  /** Some upload is about to retire one of the two for the other. */
  ghost predicate Settled(s: State, x: Slug, y: Slug) {
    exists id :: Resolving(s, id, x, y) || Resolving(s, id, y, x)
  }

  /** Two live files of one name, and no upload about to retire either for the other. */
  ghost predicate Stranded(s: State, x: Slug, y: Slug) {
    Twins(s.stores.tables, x, y) && !Settled(s, x, y)
  }

  /** No upload but id is resolving the pair. */
  ghost predicate OnlyHope(s: State, id: nat, x: Slug, y: Slug) {
    && (Resolving(s, id, x, y) || Resolving(s, id, y, x))
    && forall other | other != id :: !Resolving(s, other, x, y) && !Resolving(s, other, y, x)
  }

  /** Upload id goes live as x beside a live y of its name that it is not about to retire, or without coming to that. */
  ghost predicate PublishesBeside(s: State, id: nat, readBack: bool, x: Slug, y: Slug)
    requires UploadIn(s, id, Cleared)
  {
    var (t, up) := (s.stores.tables, s.requests[id].up);
    && up.rec.slug == x && x != y && x in t.files && t.IsLive(y) && t.files[x].displayName == t.files[y].displayName
    && !(readBack && SlugOf(up.replaced) == Some(y))
  }

  /**
   The actions that strand a pair: going live beside a file of the name other than the one to be retired, or
   without a read-back; and the end of the only upload that was to retire one of the two - its closing
   transaction fails, or it stops.
   */
  ghost predicate Strands(s: State, a: Action, x: Slug, y: Slug)
    requires Enabled(s, a)
  {
    match a
    case Finalize(id, _, updated, readBack) =>
      updated && (PublishesBeside(s, id, readBack, x, y) || PublishesBeside(s, id, readBack, y, x))
    case Retag(id, works) => !works && Twins(s.stores.tables, x, y) && OnlyHope(s, id, x, y)
    case Stop(id) => Twins(s.stores.tables, x, y) && OnlyHope(s, id, x, y)
    case _ => false
  }

  // ---- One action ----

  lemma UploadsResolvingAfter(up: Upload, a: Action)
    requires PhaseAllows(up.phase, a)
    ensures (UploadAfter(up, a).phase == WentLive <==> a.Finalize? && a.updated && a.readBack)
    ensures up.phase == WentLive ==> a.Retag?
    ensures UploadAfter(up, a).rec == up.rec && UploadAfter(up, a).replaced == up.replaced
  {
  }

  lemma UploadsRequestAfter(s: State, a: Action)
    requires Enabled(s, a) && IsUploadAction(a)
    ensures a.id in s.requests && s.requests[a.id].Uploading? && PhaseAllows(s.requests[a.id].up.phase, a)
    ensures Next(s, a).requests == s.requests[a.id := Uploading(UploadAfter(s.requests[a.id].up, a))]
  {
    hide StoresAfter, UploadAfter;
  }

  lemma OtherRequestsAfter(s: State, a: Action, id: nat)
    requires Enabled(s, a) && !IsUploadAction(a)
    ensures UploadIn(Next(s, a), id, WentLive) <==> UploadIn(s, id, WentLive) && !(a.Stop? && a.id == id)
    ensures UploadIn(Next(s, a), id, WentLive) ==> Next(s, a).requests[id] == s.requests[id]
  {
    hide StoresAfter, UploadAfter, Tables.IsAnswerByName;
  }

  /** Which of the requests that resolve a pair an action adds or ends. */
  lemma ResolvingAfter(s: State, a: Action, id: nat, x: Slug, y: Slug)
    requires Enabled(s, a)
    ensures a.Finalize? ==> a.id in s.requests && s.requests[a.id].Uploading?
    ensures Resolving(Next(s, a), id, x, y) <==>
            if a.Finalize? && a.id == id then
              a.updated && a.readBack && s.requests[id].up.rec.slug == x && SlugOf(s.requests[id].up.replaced) == Some(y)
            else Resolving(s, id, x, y) && !((a.Retag? || a.Stop?) && a.id == id)
  {
    hide StoresAfter, UploadAfter, Tables.IsAnswerByName, SlugOf, Enabled, Next, PhaseAllows;
    if IsUploadAction(a) {
      UploadsRequestAfter(s, a);
      UploadsResolvingAfter(s.requests[a.id].up, a);
    } else {
      OtherRequestsAfter(s, a, id);
    }
  }

  lemma FinalizeFacts(s: State, a: Action)
    requires Inv(s) && Enabled(s, a) && a.Finalize?
    ensures UploadIn(s, a.id, Cleared)
    ensures var (t, t', up) := (s.stores.tables, Next(s, a).stores.tables, s.requests[a.id].up);
            && t.IsPending(up.rec.slug) && SlugOf(up.replaced) != Some(up.rec.slug)
            && t' == (if a.updated then t.Finalize(up.rec.slug, |up.streamed|, a.modified) else t)
            && (forall other | other in s.requests && other != a.id && s.requests[other].Uploading? ::
                  s.requests[other].up.rec.slug != up.rec.slug
                  && SlugOf(s.requests[other].up.replaced) != Some(up.rec.slug))
  {
    UploadIsOk(s, a);
    UploadActionFacts(s, a);
    var up := s.requests[a.id].up;
    PendingIsUnsettled(s.stores, up.rec.slug);
    forall other | other in s.requests && other != a.id && s.requests[other].Uploading?
      ensures SlugOf(s.requests[other].up.replaced) != Some(up.rec.slug)
    {
      SupersedesSettled(s, other);
    }
  }

  /** What an upload is to retire has been live. */
  lemma SupersedesSettled(s: State, id: nat)
    requires Inv(s) && id in s.requests && s.requests[id].Uploading?
    ensures var replaced := s.requests[id].up.replaced; replaced.Some? ==> replaced.value.slug in s.stores.content
  {
    hide StoresOk, HistoryOk, Tables.IsLive, Tables.IsPending;
    assert RequestOk(s.stores, s.requests[id]);
  }

  lemma FinalizeTwins(t: Tables, slug: Slug, size: int, modified: string, x: Slug, y: Slug)
    requires t.IsPending(slug)
    ensures var u := t.Finalize(slug, size, modified);
            Twins(u, x, y) <==>
            if x == slug || y == slug then
              x != y && (x == slug || t.IsLive(x)) && (y == slug || t.IsLive(y))
              && x in t.files && y in t.files && t.files[x].displayName == t.files[y].displayName
            else Twins(t, x, y)
  {
  }

  /** Before a file goes live nobody is to retire it, nor anything for it; afterwards only its own upload is. */
  lemma FinalizeSettles(s: State, a: Action, x: Slug, y: Slug)
    requires Inv(s) && Enabled(s, a) && a.Finalize? && a.updated && x != y
    ensures UploadIn(s, a.id, Cleared)
    ensures var up := s.requests[a.id].up;
            Settled(Next(s, a), x, y) <==>
            if up.rec.slug == x then a.readBack && SlugOf(up.replaced) == Some(y)
            else if up.rec.slug == y then a.readBack && SlugOf(up.replaced) == Some(x)
            else Settled(s, x, y)
  {
    hide Inv, Next, Enabled, StoresAfter;
    FinalizeFacts(s, a);
    ClearedIsNotLive(s, a, x, y);
    var (s', up) := (Next(s, a), s.requests[a.id].up);
    forall id ensures Resolving(s', id, x, y) <==>
                      if id == a.id then a.readBack && up.rec.slug == x && SlugOf(up.replaced) == Some(y) else Resolving(s, id, x, y)
              ensures Resolving(s', id, y, x) <==>
                      if id == a.id then a.readBack && up.rec.slug == y && SlugOf(up.replaced) == Some(x) else Resolving(s, id, y, x)
    {
      ResolvingAfter(s, a, id, x, y);
      ResolvingAfter(s, a, id, y, x);
    }
    if up.rec.slug == x || up.rec.slug == y {
      forall id ensures !Resolving(s, id, x, y) && !Resolving(s, id, y, x) {
      }
      assert Resolving(s', a.id, x, y) || Resolving(s', a.id, y, x) ==> Settled(s', x, y);
    } else {
      hide Resolving;
      if Settled(s, x, y) {
        var id :| Resolving(s, id, x, y) || Resolving(s, id, y, x);
        assert Resolving(s', id, x, y) || Resolving(s', id, y, x);
      }
      if Settled(s', x, y) {
        var id :| Resolving(s', id, x, y) || Resolving(s', id, y, x);
        assert Resolving(s, id, x, y) || Resolving(s, id, y, x);
      }
    }
  }

  lemma FinalizeStrands(s: State, a: Action, x: Slug, y: Slug)
    requires Inv(s) && Enabled(s, a) && a.Finalize? && a.updated
    ensures Stranded(Next(s, a), x, y) <==> (Stranded(s, x, y) && Twins(Next(s, a).stores.tables, x, y)) || Strands(s, a, x, y)
  {
    hide Inv, Next, Enabled, Settled, Tables.Finalize;
    FinalizeFacts(s, a);
    var (t, up) := (s.stores.tables, s.requests[a.id].up);
    FinalizeTwins(t, up.rec.slug, |up.streamed|, a.modified, x, y);
    if x != y {
      FinalizeSettles(s, a, x, y);
    }
  }

  /** An action that publishes nothing makes no twins. */
  lemma NoNewTwins(s: State, a: Action, x: Slug, y: Slug)
    requires Inv(s) && Enabled(s, a) && !(a.Finalize? && a.updated)
    ensures Twins(Next(s, a).stores.tables, x, y) ==> Twins(s.stores.tables, x, y)
  {
    if a.Finalize? {
      FinalizeFacts(s, a);
    } else {
      hide Inv, Enabled, Next;
      OnlyFinalizeMakesLive(s, a, x);
      OnlyFinalizeMakesLive(s, a, y);
    }
  }

  lemma FailedRetagKeepsTables(s: State, a: Action)
    requires Enabled(s, a) && (a.Stop? || (a.Retag? && !a.works))
    ensures Next(s, a).stores.tables == s.stores.tables
  {
  }

  /** A closing transaction that works leaves no twins for its upload to resolve. */
  lemma RetagResolves(s: State, a: Action, x: Slug, y: Slug)
    requires Inv(s) && Enabled(s, a) && a.Retag? && a.works && (Resolving(s, a.id, x, y) || Resolving(s, a.id, y, x))
    ensures !Twins(Next(s, a).stores.tables, x, y)
  {
    UploadActionFacts(s, a);
    hide Inv, Enabled, Next;
  }

  /** Without a file going live, requests that resolve a pair can only end. */
  lemma EndingSettles(s: State, a: Action, x: Slug, y: Slug)
    requires Enabled(s, a) && !(a.Finalize? && a.updated)
    ensures Settled(Next(s, a), x, y) <==>
            Settled(s, x, y) && !((a.Retag? || a.Stop?) && OnlyHope(s, a.id, x, y))
  {
    var s' := Next(s, a);
    if a.Finalize? {
      ClearedIsNotLive(s, a, x, y);
    }
    hide Enabled, Next, Resolving;
    forall id ensures Resolving(s', id, x, y) <==> Resolving(s, id, x, y) && !((a.Retag? || a.Stop?) && a.id == id)
              ensures Resolving(s', id, y, x) <==> Resolving(s, id, y, x) && !((a.Retag? || a.Stop?) && a.id == id)
    {
      ResolvingAfter(s, a, id, x, y);
      ResolvingAfter(s, a, id, y, x);
    }
  }

  lemma ClearedIsNotLive(s: State, a: Action, x: Slug, y: Slug)
    requires Enabled(s, a) && a.Finalize?
    ensures !Resolving(s, a.id, x, y) && !Resolving(s, a.id, y, x)
  {
  }

  lemma EndingStrands(s: State, a: Action, x: Slug, y: Slug)
    requires Inv(s) && Enabled(s, a) && !(a.Finalize? && a.updated)
    ensures Stranded(Next(s, a), x, y) <==> (Stranded(s, x, y) && Twins(Next(s, a).stores.tables, x, y)) || Strands(s, a, x, y)
  {
    hide Inv, Enabled, Next, Twins, Resolving, Settled;
    NoNewTwins(s, a, x, y);
    EndingSettles(s, a, x, y);
    if a.Stop? || (a.Retag? && !a.works) {
      FailedRetagKeepsTables(s, a);
      HopeIsSettled(s, a.id, x, y);
    } else if a.Retag? && (Resolving(s, a.id, x, y) || Resolving(s, a.id, y, x)) {
      RetagResolves(s, a, x, y);
    }
  }

  lemma HopeIsSettled(s: State, id: nat, x: Slug, y: Slug)
    ensures OnlyHope(s, id, x, y) ==> Settled(s, x, y)
  {
  }

  /**
   Under every interleaving, a pair is stranded after an action if and only if it was before and both files
   are still live, or the action is one that strands it. Nothing ever takes a stranded pair up again.
   */
  lemma StrandedExactly(s: State, a: Action, x: Slug, y: Slug)
    requires Inv(s) && Enabled(s, a)
    ensures Stranded(Next(s, a), x, y) <==> (Stranded(s, x, y) && Twins(Next(s, a).stores.tables, x, y)) || Strands(s, a, x, y)
  {
    hide Inv, Enabled, Next, Stranded, Strands, Twins;
    if a.Finalize? && a.updated {
      FinalizeStrands(s, a, x, y);
    } else {
      EndingStrands(s, a, x, y);
    }
  }

  // ---- Whole runs ----

  /** Among the first n actions one strands the pair. */
  ghost predicate WasStranded(states: seq<State>, actions: seq<Action>, n: nat, x: Slug, y: Slug)
    requires IsRun(states, actions) && n < |states|
  {
    exists k :: 0 <= k < n && Strands(states[k], actions[k], x, y)
  }

  /** Twins stay twins as long as both are live: names never change. */
  lemma TwinsStay(states: seq<State>, actions: seq<Action>, i: nat, j: nat, x: Slug, y: Slug)
    requires IsRun(states, actions) && i <= j < |states| && Twins(states[i].stores.tables, x, y)
    ensures Twins(states[j].stores.tables, x, y) <==>
            states[j].stores.tables.IsLive(x) && states[j].stores.tables.IsLive(y)
  {
    RowsOnlyAdvance(states, actions, i, j);
    hide IsRun;
  }

  /** Over every run, the stranded pairs are exactly those that some action has stranded and that are both still live. */
  lemma {:induction false} StrandedForGood(states: seq<State>, actions: seq<Action>, n: nat, x: Slug, y: Slug)
    requires IsRun(states, actions) && n < |states|
    ensures Stranded(states[n], x, y) <==> WasStranded(states, actions, n, x, y) && Twins(states[n].stores.tables, x, y)
  {
    hide Inv, Enabled, Next, Twins, Settled, Strands;
    if n == 0 {
      NoTwinsYet(x, y);
    } else {
      var (s, a) := (states[n - 1], actions[n - 1]);
      RunKeepsInv(states, actions, n - 1);
      StrandedForGood(states, actions, n - 1, x, y);
      StrandedExactly(s, a, x, y);
      if WasStranded(states, actions, n - 1, x, y) && Twins(states[n].stores.tables, x, y) {
        TwinsOnlyEnd(states, actions, n, x, y);
      }
    }
  }

  lemma NoTwinsYet(x: Slug, y: Slug)
    ensures !Twins(INITIAL.stores.tables, x, y)
  {
  }

  lemma TwinsOnlyEnd(states: seq<State>, actions: seq<Action>, n: nat, x: Slug, y: Slug)
    requires IsRun(states, actions) && 0 < n < |states|
    requires WasStranded(states, actions, n - 1, x, y) && Twins(states[n].stores.tables, x, y)
    ensures Twins(states[n - 1].stores.tables, x, y)
  {
    hide Inv, Enabled, Next, Strands, Settled, Advances, Twins, Tables.IsLive;
    var k :| 0 <= k < n - 1 && Strands(states[k], actions[k], x, y);
    RunKeepsInv(states, actions, k);
    StrandedExactly(states[k], actions[k], x, y);
    RowsOnlyAdvance(states, actions, k + 1, n - 1);
    RowsOnlyAdvance(states, actions, n - 1, n);
    TwinsInBetween(states[k + 1].stores.tables, states[n - 1].stores.tables, states[n].stores.tables, x, y);
  }

  lemma TwinsInBetween(t: Tables, u: Tables, v: Tables, x: Slug, y: Slug)
    requires Advances(t, u) && Advances(u, v) && Twins(t, x, y) && Twins(v, x, y)
    ensures Twins(u, x, y)
  {
  }

  /**
   Names at rest: when all requests have finished, two live files share a name if and only if some action of
   the run stranded them and neither has been retired or deleted since.
   */
  lemma NamesAtRest(states: seq<State>, actions: seq<Action>, n: nat)
    requires IsRun(states, actions) && n < |states| && Finished(states[n])
    ensures NamesAreUnique(states[n].stores.tables) <==>
            forall x, y | WasStranded(states, actions, n, x, y) :: !Twins(states[n].stores.tables, x, y)
  {
    var t := states[n].stores.tables;
    forall x, y ensures Twins(t, x, y) ==> WasStranded(states, actions, n, x, y) {
      StrandedForGood(states, actions, n, x, y);
    }
    hide IsRun, WasStranded;
    if !NamesAreUnique(t) {
      var x, y :| x in t.files && y in t.files && t.IsLive(x) && t.IsLive(y)
                  && t.files[x].displayName == t.files[y].displayName && x != y;
      assert Twins(t, x, y);
    }
  }
}
