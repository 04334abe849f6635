/** Slugs and the object keys derived from them. */
module Keys {
  const SHORT_SLUG_MIN_LEN := 5
  const SHORT_SLUG_MAX_LEN := 12
  const SHORT_SLUG_ATTEMPTS_PER_LEN := 10
  const SNAPSHOT_NAME := "artifact.db"

  /** The characters a slug is drawn from. */
  predicate IsAlphanumeric(c: char) {
    'a' <= c <= 'z' || 'A' <= c <= 'Z' || '0' <= c <= '9'
  }

  predicate IsSlugOfLength(s: string, n: nat) {
    |s| == n && forall i :: 0 <= i < |s| ==> IsAlphanumeric(s[i])
  }

  predicate IsSlug(s: string) {
    SHORT_SLUG_MIN_LEN <= |s| <= SHORT_SLUG_MAX_LEN && IsSlugOfLength(s, |s|)
  }

  /** Files are sharded by the first two characters of their slug. */
  function StorageKeyForSlug(slug: string): string
    requires |slug| >= 2
  {
    slug[..2] + "/" + slug[2..]
  }

  lemma StorageKeysAreInjective(a: string, b: string)
    requires |a| >= 2 && |b| >= 2
    ensures StorageKeyForSlug(a) == StorageKeyForSlug(b) <==> a == b
  {
    var k, l := StorageKeyForSlug(a), StorageKeyForSlug(b);
    if k == l {
      assert a == k[..2] + k[3..];
      assert b == l[..2] + l[3..];
    }
  }

  /**
   No stored blob can ever be taken for the database snapshot, or overwrite it, whatever prefixes
   the two stores are configured with: the last path segments differ.
   */
  lemma BlobKeysNeverMeetTheSnapshot(blobPrefix: string, backupPrefix: string, slug: string)
    requires IsSlug(slug)
    ensures blobPrefix + StorageKeyForSlug(slug) != backupPrefix + SNAPSHOT_NAME
  {
    var blob := blobPrefix + StorageKeyForSlug(slug);
    var snapshot := backupPrefix + SNAPSHOT_NAME;
    // Three characters from the end, the snapshot has its dot where the blob still has its slug.
    assert snapshot[|snapshot| - 3] == SNAPSHOT_NAME[8] == '.';
    assert blob[|blob| - 3] == slug[|slug| - 3];
    assert IsAlphanumeric(slug[|slug| - 3]);
  }
}
