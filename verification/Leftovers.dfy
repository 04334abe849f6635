/**
 Blobs that nobody will ever serve or remove. A blob belongs to a live file or to a request that is still
 to publish it or to remove it; this module says exactly which actions let one drop out of both.
 */
module Leftovers {
  import opened Records
  import opened Protocol
  import opened Guarantees
  import opened Races
  import opened NameRaces

  /** The request has this blob in hand: an upload its own until it is live, and the one of the file it has retired. */
  predicate Handles(r: Request, key: string) {
    match r
    case Uploading(up) =>
      if up.phase.Streaming? || up.phase.Stored? || up.phase.Cleared? || up.phase.DropBlob? then up.rec.storageKey == key
      else up.phase.Retagged? && up.replaced.Some? && up.replaced.value.storageKey == key
    case Deleting(rec) => rec.storageKey == key
    case _ => false
  }

  predicate IsHandled(requests: map<nat, Request>, key: string) {
    exists id :: id in requests && Handles(requests[id], key)
  }

  predicate IsLiveKey(t: Tables, key: string) {
    exists x :: x in t.files && t.IsLive(x) && t.files[x].storageKey == key
  }

  /** The blob is no live file's, and no request's. */
  predicate Leftover(s: State, key: string) {
    key in s.stores.blobs && !IsLiveKey(s.stores.tables, key) && !IsHandled(s.requests, key)
  }

  ghost predicate NothingLeft(s: State) {
    forall key | key in s.stores.blobs :: !Leftover(s, key)
  }

  /**
   The request lets go of what it has in hand without publishing or removing it: a finalizing update that
   fails, a listing that fails before the superseded blob is removed, a removal that fails, or the end of the
   request between two calls.
   */
  predicate LetsGo(a: Action) {
    match a
    case Finalize(_, _, updated, _) => !updated
    case ListFailed(_) => true
    case Reclaim(_, works) => !works
    case DiscardBlob(_, works) => !works
    case RemoveBlob(_, works) => !works
    case Stop(_) => true
    case _ => false
  }

  /** The action leaves this blob behind: it lets go of a stored blob that no other request has in hand. */
  ghost predicate Leaks(s: State, a: Action, key: string)
    requires Enabled(s, a)
  {
    && LetsGo(a) && a.id in s.requests && key in s.stores.blobs && Handles(s.requests[a.id], key)
    && forall other | other in s.requests && other != a.id :: !Handles(s.requests[other], key)
  }

  // ---- What is in hand is not live ----

  lemma HandledIsNotLive(s: State, id: nat, key: string)
    requires Inv(s) && id in s.requests && Handles(s.requests[id], key)
    ensures !IsLiveKey(s.stores.tables, key)
  {
    hide HistoryOk;
    assert RequestOk(s.stores, s.requests[id]);
    var r := s.requests[id];
    var slug := match r
      case Uploading(up) => if up.phase.Retagged? then up.replaced.value.slug else up.rec.slug
      case Deleting(rec) => rec.slug
      case _ => "";
    assert slug in s.stores.tables.files && s.stores.tables.files[slug].storageKey == key && !s.stores.tables.IsLive(slug);
  }

  // ---- What an action of an upload does to a blob ----

  /** What becomes of a blob that an upload has in hand, unless it lets go of it: it is removed, live, or still in hand. */
  lemma InHandIsKept(st: Stores, up: Upload, a: Action, key: string)
    requires UploadOk(st, up) && PhaseAllows(up.phase, a) && Handles(Uploading(up), key) && !LetsGo(a)
    ensures var st' := StoresAfter(st, up, a);
            key !in st'.blobs || IsLiveKey(st'.tables, key) || Handles(Uploading(UploadAfter(up, a)), key)
  {
    hide WasLive;
    var st' := StoresAfter(st, up, a);
    if a.Finalize? {
      assert st'.tables.IsLive(up.rec.slug) && st'.tables.files[up.rec.slug].storageKey == key;
    }
  }

  /** Letting go changes neither the blobs nor the live files. */
  lemma LettingGo(st: Stores, up: Upload, a: Action)
    requires PhaseAllows(up.phase, a) && LetsGo(a)
    ensures StoresAfter(st, up, a) == st
    ensures forall key :: !Handles(Uploading(UploadAfter(up, a)), key)
  {
  }

  /** A blob that the upload does not have in hand is not written, and stays live unless the upload retires its file. */
  lemma OutOfHand(st: Stores, up: Upload, a: Action, key: string)
    requires UploadOk(st, up) && PhaseAllows(up.phase, a) && !Handles(Uploading(up), key)
    ensures var st' := StoresAfter(st, up, a);
            && (key in st'.blobs ==> key in st.blobs)
            && (IsLiveKey(st.tables, key) ==> IsLiveKey(st'.tables, key) || Handles(Uploading(UploadAfter(up, a)), key))
  {
    var st' := StoresAfter(st, up, a);
    if IsLiveKey(st.tables, key) {
      var x :| x in st.tables.files && st.tables.IsLive(x) && st.tables.files[x].storageKey == key;
      StillLive(st, up, a, x);
      assert st'.tables.IsLive(x) ==> IsLiveKey(st'.tables, key);
    }
    hide UploadOk;
  }

  lemma StillLive(st: Stores, up: Upload, a: Action, x: Slug)
    requires UploadOk(st, up) && PhaseAllows(up.phase, a) && x in st.tables.files && st.tables.IsLive(x)
    ensures var st' := StoresAfter(st, up, a);
            && x in st'.tables.files && st'.tables.files[x].storageKey == st.tables.files[x].storageKey
            && (st'.tables.IsLive(x) ||
                (a.Retag? && a.works && up.replaced.Some? && up.replaced.value.storageKey == st.tables.files[x].storageKey))
  {
  }

  lemma UploadLeaks(s: State, a: Action, key: string)
    requires Inv(s) && Enabled(s, a) && IsUploadAction(a) && !Leftover(s, key)
    ensures Leftover(Next(s, a), key) <==> Leaks(s, a, key)
  {
    hide Inv, Enabled, Next, StoresAfter, UploadAfter, UploadOk, PhaseAllows, Handles, IsLiveKey, LetsGo, StoresOk;
    UploadsRequestAfter(s, a);
    UploadActionFacts(s, a);
    UploadIsOk(s, a);
    var (s', up) := (Next(s, a), s.requests[a.id].up);
    forall other | other != a.id ensures other in s'.requests <==> other in s.requests
                                 ensures other in s.requests ==> s'.requests[other] == s.requests[other]
    {
    }
    if Handles(s.requests[a.id], key) {
      HandledIsNotLive(s, a.id, key);
      if LetsGo(a) {
        LettingGo(s.stores, up, a);
      } else {
        InHandIsKept(s.stores, up, a, key);
        assert a.id in s'.requests;
      }
    } else {
      OutOfHand(s.stores, up, a, key);
      if IsHandled(s.requests, key) {
        var other :| other in s.requests && Handles(s.requests[other], key);
        assert other in s'.requests && Handles(s'.requests[other], key);
      }
      assert a.id in s'.requests;
    }
  }

  // ---- What any other action does to a blob ----

  lemma OtherLeaks(s: State, a: Action, key: string)
    requires Inv(s) && Enabled(s, a) && !IsUploadAction(a) && !Leftover(s, key)
    ensures Leftover(Next(s, a), key) <==> Leaks(s, a, key)
  {
    if a.Stop? || a.RemoveBlob? {
      EndingLeaks(s, a, key);
    } else {
      assert !LetsGo(a);
      OtherKeeps(s, a, key);
    }
  }

  /** The request is over; unless it removed its blob, what it had in hand is let go. */
  lemma EndingLeaks(s: State, a: Action, key: string)
    requires Inv(s) && Enabled(s, a) && (a.Stop? || a.RemoveBlob?) && !Leftover(s, key)
    ensures Leftover(Next(s, a), key) <==> Leaks(s, a, key)
  {
    EndingFacts(s, a);
    var s' := Next(s, a);
    if Handles(s.requests[a.id], key) {
      HandledIsNotLive(s, a.id, key);
    }
    hide Inv, Enabled, Next, Handles, IsLiveKey;
    forall other ensures other in s'.requests <==> other in s.requests && other != a.id
                 ensures other in s'.requests ==> s'.requests[other] == s.requests[other]
    {
    }
    if IsHandled(s.requests, key) && !Handles(s.requests[a.id], key) {
      var other :| other in s.requests && Handles(s.requests[other], key);
      assert other in s'.requests && Handles(s'.requests[other], key);
    }
  }

  lemma EndingFacts(s: State, a: Action)
    requires Enabled(s, a) && (a.Stop? || a.RemoveBlob?)
    ensures a.id in s.requests && Next(s, a).requests == s.requests - {a.id} && Next(s, a).stores.tables == s.stores.tables
    ensures LetsGo(a) ==> Next(s, a).stores.blobs == s.stores.blobs
    ensures !LetsGo(a) ==> forall key ::
                             (Handles(s.requests[a.id], key) ==> key !in Next(s, a).stores.blobs)
                             && (key in Next(s, a).stores.blobs ==> key in s.stores.blobs)
  {
  }

  lemma OtherKeeps(s: State, a: Action, key: string)
    requires Inv(s) && Enabled(s, a) && !IsUploadAction(a) && !a.Stop? && !a.RemoveBlob? && !Leftover(s, key)
    ensures !Leftover(Next(s, a), key)
  {
    OtherKeepsFacts(s, a, key);
    var s' := Next(s, a);
    hide Inv, Enabled, Next, Handles, IsLiveKey;
    if IsHandled(s.requests, key) {
      var other :| other in s.requests && Handles(s.requests[other], key);
      assert other in s'.requests && Handles(s'.requests[other], key);
    }
  }

  lemma OtherKeepsFacts(s: State, a: Action, key: string)
    requires Enabled(s, a) && !IsUploadAction(a) && !a.Stop? && !a.RemoveBlob?
    ensures Next(s, a).stores.blobs == s.stores.blobs
    ensures forall other | other in s.requests && Handles(s.requests[other], key) ::
              other in Next(s, a).requests && Next(s, a).requests[other] == s.requests[other]
    ensures IsLiveKey(s.stores.tables, key) ==> IsLiveKey(Next(s, a).stores.tables, key) || IsHandled(Next(s, a).requests, key)
  {
    var (s', t, t') := (Next(s, a), s.stores.tables, Next(s, a).stores.tables);
    hide StoresAfter, UploadAfter;
    if IsLiveKey(t, key) {
      var x :| x in t.files && t.IsLive(x) && t.files[x].storageKey == key;
      if a.SoftDelete? && a.slug == x {
        assert a.id in s'.requests && Handles(s'.requests[a.id], key);
      } else {
        assert x in t'.files && t'.IsLive(x) && t'.files[x].storageKey == key;
      }
    }
  }

  // ---- The theorems ----

  /**
   Under every interleaving, a blob that was somebody's is nobody's after an action if and only if the action
   lets go of it and no other request has it in hand.
   */
  lemma LeaksExactly(s: State, a: Action, key: string)
    requires Inv(s) && Enabled(s, a) && !Leftover(s, key)
    ensures Leftover(Next(s, a), key) <==> Leaks(s, a, key)
  {
    hide Inv, Enabled, Next, Leftover, Leaks;
    if IsUploadAction(a) {
      UploadLeaks(s, a, key);
    } else {
      OtherLeaks(s, a, key);
    }
  }

  /** Some action before moment n leaks a blob. */
  ghost predicate HasLeaked(states: seq<State>, actions: seq<Action>, n: nat)
    requires IsRun(states, actions) && n < |states|
  {
    exists k, key :: 0 <= k < n && Leaks(states[k], actions[k], key)
  }

  /** Over every run, no blob was ever left over up to moment n if and only if no action before it leaked one. */
  lemma {:induction false} NothingLeftExactly(states: seq<State>, actions: seq<Action>, n: nat)
    requires IsRun(states, actions) && n < |states|
    ensures (forall m | 0 <= m <= n :: NothingLeft(states[m])) <==> !HasLeaked(states, actions, n)
  {
    hide Inv, Enabled, Next, Leaks, Leftover;
    if n == 0 {
      NothingAtFirst();
    } else {
      NothingLeftExactly(states, actions, n - 1);
      if forall m | 0 <= m <= n - 1 :: NothingLeft(states[m]) {
        var (s, a) := (states[n - 1], actions[n - 1]);
        assert NothingLeft(s);
        RunKeepsInv(states, actions, n - 1);
        forall key ensures Leftover(states[n], key) <==> Leaks(s, a, key) {
          StoredBefore(s, key);
          LeaksExactly(s, a, key);
        }
        LeftoverIsStored(states[n]);
      }
    }
  }

  lemma NothingAtFirst()
    ensures NothingLeft(INITIAL)
  {
  }

  lemma StoredBefore(s: State, key: string)
    requires NothingLeft(s)
    ensures !Leftover(s, key)
  {
  }

  lemma LeftoverIsStored(s: State)
    ensures forall key | Leftover(s, key) :: key in s.stores.blobs
  {
  }

  function LiveKeys(t: Tables): set<string> {
    set x | x in t.files && t.IsLive(x) :: t.files[x].storageKey
  }

  /**
   Storage at rest: if no action of a run has leaked a blob, then whenever all requests have finished the
   blobs in the store are exactly those of the live files.
   */
  lemma BlobsAtRest(states: seq<State>, actions: seq<Action>, n: nat)
    requires IsRun(states, actions) && n < |states| && Finished(states[n]) && !HasLeaked(states, actions, n)
    ensures states[n].stores.blobs.Keys == LiveKeys(states[n].stores.tables)
  {
    NothingLeftExactly(states, actions, n);
    RunKeepsInv(states, actions, n);
    var (s, t) := (states[n], states[n].stores.tables);
    hide IsRun, HasLeaked;
    assert NothingLeft(s);
    forall key | key in s.stores.blobs ensures key in LiveKeys(t) {
      assert !Leftover(s, key);
    }
  }
}
