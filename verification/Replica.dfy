/** A read-only instance: fetching the published snapshot and swapping it in, whatever goes wrong on the way. */
module Replica {
  import opened Wrappers
  import opened Bytes
  import opened Streams
  import opened RangedReader

  const MAX_DB_SNAPSHOT_SIZE: nat := 0x1_0000_0000
  const COPY_BUFFER: nat := 32 * 1024

  /** What the object store says about an object; the entity tag is empty when it provides none. */
  datatype BlobInfo = BlobInfo(size: nat, modTime: int, etag: string)

  /** One published version of the snapshot object. */
  datatype Version = Version(bytes: Bytes, modTime: int, etag: string) {
    function Info(): BlobInfo {
      BlobInfo(|bytes|, modTime, etag)
    }
  }

  predicate SameSnapshot(a: BlobInfo, b: BlobInfo) {
    if a.etag != "" && b.etag != "" then a.etag == b.etag && a.size == b.size
    else a.size == b.size && a.modTime == b.modTime
  }

  /** With distinct entity tags, two descriptions are the same exactly when they are of the same version. */
  lemma SameMeansSame(versions: seq<Version>, i: nat, j: nat)
    requires TagsAreDistinct(versions) && i < |versions| && j < |versions|
    ensures SameSnapshot(versions[i].Info(), versions[j].Info()) <==> i == j
  {
  }

  datatype DownloadError = Unreachable | NotFound | FileFailed | TransferBroken | Oversized | ShortRead | Unusable

  /** How the store answers a HEAD request: with the version that is newest at that moment. */
  datatype Head = Down | Missing | Sees(version: nat)

  /** The calls of one download: what the HEAD saw, what the GET saw, and which file operations fail. */
  datatype DownloadEnv = DownloadEnv(head: Head, get: nat, createFails: bool, closeFails: bool, renameFails: bool)

  /** No two published versions carry the same entity tag, and all carry one. */
  ghost predicate TagsAreDistinct(versions: seq<Version>) {
    forall i, j | 0 <= i < j < |versions| :: versions[i].etag != "" && versions[j].etag != "" && versions[i].etag != versions[j].etag
  }

  /** A snapshot cut short does not pass verification. */
  ghost predicate TornNeverVerifies(versions: seq<Version>, verify: Bytes -> bool) {
    forall v, part | 0 <= v < |versions| && part < versions[v].bytes :: !verify(part)
  }

  /** The answer to a GET for version v carries the version's bytes, or a leading part of them: nothing was corrupted. */
  ghost predicate Uncorrupted(response: Source?, versions: seq<Version>, v: nat)
    reads response
  {
    v < |versions| && (response != null ==> Answers(response, versions[v].bytes, None))
  }

  /**
   A download in which nothing fails: the answer ends cleanly, has the size announced - the version's own, if
   nothing was published between the HEAD and the GET - and passes verification.
   */
  ghost predicate Undisturbed(info: BlobInfo, env: DownloadEnv, response: Source?, verify: Bytes -> bool)
    reads response
  {
    && env.head.Sees? && !env.createFails && !env.closeFails && !env.renameFails
    && response != null && !response.fails && |response.Rest()| == info.size <= MAX_DB_SNAPSHOT_SIZE && verify(response.Rest())
  }

  class SnapshotReplica {
    const verify: Bytes -> bool

    var live: Option<Bytes>       // the file at the live path
    var tmp: Option<Bytes>        // the file beside it that a download fills
    var serving: Option<Bytes>    // what the open handle reads; a renamed-over file stays readable through it
    var current: BlobInfo
    var generations: nat

    // Which version current describes, which one is served, and the newest one seen so far; and whether
    // the transfer of what is served was cut short at worst, rather than corrupted.
    ghost var currentVersion: nat
    ghost var servedVersion: nat
    ghost var newestSeen: nat
    ghost var servedUncorrupted: bool

    /** Only verified snapshots are ever in place or served. */
    ghost predicate Verified()
      reads this
    {
      && (live.Some? ==> verify(live.value))
      && serving.Some? && verify(serving.value)
    }

    /** The replica is somewhere behind, or at, the newest version it has seen, and never ahead of what it recorded. */
    ghost predicate Placed(versions: seq<Version>)
      reads this
    {
      && currentVersion <= servedVersion <= newestSeen < |versions|
      && current == versions[currentVersion].Info()
      && (servedUncorrupted && TornNeverVerifies(versions, verify) ==> serving == Some(versions[servedVersion].bytes))
    }

    /**
     Fetches to a temporary name, verifies, and only then renames into place: a failure leaves the live
     file as it was. The answer may carry any bytes. A success has put in place a verified file of exactly
     the size the HEAD saw - a leading part of what the GET saw, if the transfer was not corrupted.
     */
    method DownloadSnapshot(ghost versions: seq<Version>, info: BlobInfo, env: DownloadEnv, response: Source?)
      returns (r: Result<BlobInfo, DownloadError>)
      requires env.head.Sees? ==> env.get < |versions|
      requires env.head.Sees? ==> env.head.version < |versions| && info == versions[env.head.version].Info()
      modifies this`live, this`tmp, response
      ensures r.Failure? ==> live == old(live)
      ensures tmp == if env.head.Sees? && !env.createFails then None else old(tmp)
      ensures r.Success? ==>
                && env.head.Sees? && r.value == info && live.Some? && verify(live.value) && tmp == None
                && |live.value| == info.size <= MAX_DB_SNAPSHOT_SIZE
                && (old(Uncorrupted(response, versions, env.get)) ==>
                      && live.value <= versions[env.get].bytes
                      && (TornNeverVerifies(versions, verify) ==> live.value == versions[env.get].bytes))
      ensures r == Failure(Unreachable) <==> env.head == Down
      ensures r == Failure(NotFound) <==> env.head == Missing
      ensures old(Undisturbed(info, env, response, verify)) ==> r.Success? && live == Some(old(response.Rest()))
      ensures r.Success? ==> live.value <= old(RestOf(response))
      ensures r == Failure(FileFailed) ==> env.createFails || env.closeFails || env.renameFails
      ensures env.head.Sees? && env.createFails ==> r == Failure(FileFailed)
    {
      match env.head {
        case Down => return Failure(Unreachable);
        case Missing => return Failure(NotFound);
        case Sees(_) =>
      }
      if env.createFails {
        return Failure(FileFailed);
      }
      tmp := Some([]);
      var reader := new S3ReadSeeker(if response != null then response.Rest() else [], info.size);
      var data, err := CopyLimited(reader, MAX_DB_SNAPSHOT_SIZE + 1, COPY_BUFFER, response);
      if err.Some? {
        tmp := None;
        return Failure(TransferBroken);
      }
      tmp := Some(data);
      if env.closeFails {
        tmp := None;
        return Failure(FileFailed);
      }
      if |data| > MAX_DB_SNAPSHOT_SIZE {
        tmp := None;
        return Failure(Oversized);
      }
      if info.size > 0 && |data| != info.size {
        tmp := None;
        return Failure(ShortRead);
      }
      if !verify(tmp.value) {
        tmp := None;
        return Failure(Unusable);
      }
      if env.renameFails {
        tmp := None;
        return Failure(FileFailed);
      }
      live, tmp := tmp, None;
      return Success(info);
    }

    constructor (verify: Bytes -> bool)
      ensures this.verify == verify && live == None && serving == None
    {
      this.verify := verify;
      live, tmp, serving, generations := None, None, None, 0;
      current := BlobInfo(0, 0, "");
      currentVersion, servedVersion, newestSeen, servedUncorrupted := 0, 0, 0, false;
    }

    /** A replica's first download: it serves something verified, or refuses to start. */
    method Boot(ghost versions: seq<Version>, info: BlobInfo, env: DownloadEnv, response: Source?, openFails: bool)
      returns (ok: bool)
      requires live == None && serving == None
      requires env.head.Sees? ==> env.head.version <= env.get < |versions| && info == versions[env.head.version].Info()
      modifies this, response
      ensures ok ==> Verified() && Placed(versions) && live == serving && servedVersion == env.get
      ensures ok ==> servedUncorrupted == old(Uncorrupted(response, versions, env.get))
      ensures !ok ==> serving == None
      ensures old(Undisturbed(info, env, response, verify)) && !openFails ==> ok
    {
      ghost var uncorrupted := Uncorrupted(response, versions, env.get);
      var r := DownloadSnapshot(versions, info, env, response);
      if r.Failure? || openFails {
        return false;
      }
      serving, current := live, r.value;
      currentVersion, servedVersion, newestSeen, servedUncorrupted := env.head.version, env.get, env.get, uncorrupted;
      return true;
    }

    /**
     One round of following the writer, which may publish between any two of its requests: each request
     sees a version at least as new as the one before. Whatever fails and whatever bytes arrive, a verified
     snapshot stays in place and served, what is served never goes back, and - when entity tags are
     distinct - finding nothing new means the newest version is the one being served.
     */
    method Refresh(ghost versions: seq<Version>, head: Head, seen: BlobInfo, info: BlobInfo, env: DownloadEnv,
                   response: Source?, openFails: bool) returns (same: bool, swapped: bool)
      requires Verified() && Placed(versions)
      requires head.Sees? ==> newestSeen <= head.version < |versions| && seen == versions[head.version].Info()
      requires head.Sees? && env.head.Sees? ==>
                 head.version <= env.head.version <= env.get < |versions| && info == versions[env.head.version].Info()
      modifies this, response
      ensures Verified() && Placed(versions)
      ensures old(currentVersion) <= currentVersion && old(servedVersion) <= servedVersion
      ensures same ==> head.Sees? && !swapped
      ensures same && TagsAreDistinct(versions) ==> servedVersion == head.version
      ensures !swapped ==> serving == old(serving) && current == old(current) && generations == old(generations)
      ensures swapped ==> servedUncorrupted == old(Uncorrupted(response, versions, env.get))
      ensures !swapped ==> servedUncorrupted == old(servedUncorrupted)
      ensures swapped ==> serving == live && servedVersion == env.get && current == seen && generations == old(generations) + 1
      ensures old(Undisturbed(info, env, response, verify)) && head.Sees? && !openFails ==> same || swapped
      ensures head.Sees? && seen == old(current) ==> same
      ensures head.Sees? && seen.etag != "" && old(current).etag != "" ==>
                (same <==> seen.etag == old(current).etag && seen.size == old(current).size)
      ensures head.Sees? && (seen.etag == "" || old(current).etag == "") ==>
                (same <==> seen.size == old(current).size && seen.modTime == old(current).modTime)
      ensures head.Sees? && head.version == old(currentVersion) ==> same
      ensures head.Sees? && TagsAreDistinct(versions) ==> (same <==> head.version == old(currentVersion))
      ensures live != old(live) ==> live.Some? && |live.value| == info.size
      ensures live != old(live) && old(Uncorrupted(response, versions, env.get)) && TornNeverVerifies(versions, verify) ==>
                live == Some(versions[env.get].bytes)
    {
      hide Undisturbed, Uncorrupted, TornNeverVerifies, TagsAreDistinct, RestOf, Concat;
      same, swapped := false, false;
      if !head.Sees? {
        return;
      }
      if TagsAreDistinct(versions) {
        SameMeansSame(versions, head.version, currentVersion);
      }
      if SameSnapshot(seen, current) {
        same := true;
        return;
      }
      ghost var uncorrupted := Uncorrupted(response, versions, env.get);
      var r := DownloadSnapshot(versions, info, env, response);
      if r.Failure? {
        return;
      }
      if openFails {
        return;
      }
      serving, current, generations := live, seen, generations + 1;
      currentVersion, servedVersion, newestSeen, servedUncorrupted := head.version, env.get, env.get, uncorrupted;
      swapped := true;
    }
  }
}
